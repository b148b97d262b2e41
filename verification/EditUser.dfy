/** The Edit-user modal: task additions and deletions sent at once, field
    edits of listed tasks kept locally, and the save that sends the whole
    user back. */
module EditUser {
  import opened Entities
  import opened Validation
  import opened Seqs
  import Status

  const DraftHasErrors := "Corrige los errores en la nueva tarea"
  const TaskAdded := "Tarea agregada con éxito."
  const TaskAddFailed := "Error al agregar la tarea. Por favor, intenta de nuevo."
  const TaskDeleted := "Tarea eliminada con éxito."
  const TaskDeleteFailed := "Error al eliminar la tarea. Por favor, intenta de nuevo."
  const FormHasErrors := "Corrige los errores en el formulario"
  const ChangesSaved := "Cambios guardados correctamente."
  const SaveFailed := "Error al guardar los cambios. Por favor, intenta de nuevo."

  /** The inline error message of each field; "" means none. */
  datatype Errors = Errors(name: string, email: string, title: string, description: string)

  const NoErrors := Errors("", "", "", "")

  /** An edit typed into one field of a listed task. */
  datatype TaskEdit = SetTitle(title: string) | SetDescription(description: string) | SetStatus(status: string)

  /** The in-row `onChange` handlers:
      `prev.map((t) => t.id === id ? { ...t, field: value } : t)`. The
      list keeps its length and its ids; a task with another id is left as
      it is; a task with that id gets the new value in the edited field and
      keeps the other two. No length check applies. */
  function EditById(tasks: seq<Task>, id: int, edit: TaskEdit): (r: seq<Task>)
    ensures |r| == |tasks|
    ensures forall i :: 0 <= i < |r| ==> r[i].id == tasks[i].id
    ensures forall i :: 0 <= i < |r| && tasks[i].id != id ==> r[i] == tasks[i]
    ensures forall i :: 0 <= i < |r| && tasks[i].id == id ==>
              && r[i].title == (if edit.SetTitle? then edit.title else tasks[i].title)
              && r[i].description == (if edit.SetDescription? then edit.description else tasks[i].description)
              && r[i].status == (if edit.SetStatus? then edit.status else tasks[i].status)
  {
    seq(|tasks|, i requires 0 <= i < |tasks| =>
      var t := tasks[i];
      if t.id != id then t
      else match edit
        case SetTitle(v) => t.(title := v)
        case SetDescription(v) => t.(description := v)
        case SetStatus(v) => t.(status := v))
  }

  /** Typing the same value twice is the same as typing it once. */
  lemma EditByIdIdempotent(tasks: seq<Task>, id: int, edit: TaskEdit)
    ensures EditById(EditById(tasks, id, edit), id, edit) == EditById(tasks, id, edit)
  {
  }

  /** `prev.filter((task) => task.id !== taskId)` */
  function RemoveTaskById(tasks: seq<Task>, id: int): (r: seq<Task>)
    ensures forall t :: t in r <==> t in tasks && t.id != id
  {
    Filter(tasks, (t: Task) => t.id != id)
  }

  /** Deleting a task discards whatever was typed into it before. */
  lemma {:induction false} DeleteDiscardsEdits(tasks: seq<Task>, id: int, edit: TaskEdit)
    ensures RemoveTaskById(EditById(tasks, id, edit), id) == RemoveTaskById(tasks, id)
  {
    if tasks != [] {
      var edited := EditById(tasks, id, edit);
      assert edited[1..] == EditById(tasks[1..], id, edit);
      DeleteDiscardsEdits(tasks[1..], id, edit);
    }
  }

  /** The check `handleSave` makes before sending anything. */
  predicate FormAccepted(name: string, email: string) {
    ValidateEdit(Name, name) == "" && ValidateEdit(Email, email) == ""
  }

  class EditUserForm {
    const user: User
    var name: string
    var email: string
    var tasks: seq<Task>
    var newTask: Draft
    var errors: Errors
    var snackbar: Snackbar

    /** The modal opened on `user`. */
    constructor(user: User)
      ensures this.user == user
      ensures name == user.name && email == user.email && tasks == user.tasks
      ensures newTask == Status.EmptyDraft && errors == NoErrors && snackbar == ClosedSnackbar
    {
      this.user := user;
      name := user.name;
      email := user.email;
      tasks := user.tasks;
      newTask := Status.EmptyDraft;
      errors := NoErrors;
      snackbar := ClosedSnackbar;
    }

    /** The name field's `onChange`: stores the value and its live error. */
    method SetName(value: string)
      modifies this`name, this`errors
      ensures name == value && errors == old(errors).(name := ValidateEdit(Name, value))
    {
      name := value;
      errors := errors.(name := ValidateEdit(Name, value));
    }

    /** The email field's `onChange`. */
    method SetEmail(value: string)
      modifies this`email, this`errors
      ensures email == value && errors == old(errors).(email := ValidateEdit(Email, value))
    {
      email := value;
      errors := errors.(email := ValidateEdit(Email, value));
    }

    /** The draft title's `onChange`. */
    method SetDraftTitle(value: string)
      modifies this`newTask, this`errors
      ensures newTask == old(newTask).(title := value)
      ensures errors == old(errors).(title := ValidateEdit(Title, value))
    {
      newTask := newTask.(title := value);
      errors := errors.(title := ValidateEdit(Title, value));
    }

    /** The draft description's `onChange`. */
    method SetDraftDescription(value: string)
      modifies this`newTask, this`errors
      ensures newTask == old(newTask).(description := value)
      ensures errors == old(errors).(description := ValidateEdit(Description, value))
    {
      newTask := newTask.(description := value);
      errors := errors.(description := ValidateEdit(Description, value));
    }

    /** The draft status select's `onChange`. */
    method SetDraftStatus(value: string)
      modifies this`newTask
      ensures newTask == old(newTask).(status := value)
    {
      newTask := newTask.(status := value);
    }

    /** `handleAddTask`, given the outcome of `POST /tasks`. A draft whose
        title or description breaks the edit rules is not sent. A sent draft
        is appended, as the server returned it, only when the request
        resolves; then the draft goes back to empty and pending. */
    method HandleAddTask(reply: Outcome<Task>) returns (sent: seq<Request>)
      modifies this`tasks, this`newTask, this`errors, this`snackbar
      ensures var titleError := ValidateEdit(Title, old(newTask).title);
              var descriptionError := ValidateEdit(Description, old(newTask).description);
              if titleError != "" || descriptionError != "" then
                && sent == [] && tasks == old(tasks) && newTask == old(newTask)
                && errors == old(errors).(title := titleError, description := descriptionError)
                && snackbar == Show(DraftHasErrors, Error)
              else
                && sent == [PostTask(old(newTask), user.id)] && errors == old(errors)
                && if reply.Resolved? then
                     tasks == old(tasks) + [reply.value] && newTask == Status.EmptyDraft
                     && snackbar == Show(TaskAdded, Success)
                   else
                     tasks == old(tasks) && newTask == old(newTask)
                     && snackbar == Show(TaskAddFailed, Error)
    {
      var titleError := ValidateEdit(Title, newTask.title);
      var descriptionError := ValidateEdit(Description, newTask.description);
      if titleError != "" || descriptionError != "" {
        errors := errors.(title := titleError, description := descriptionError);
        snackbar := Show(DraftHasErrors, Error);
        sent := [];
        return;
      }
      sent := [PostTask(newTask, user.id)];
      if reply.Resolved? {
        tasks := tasks + [reply.value];
        newTask := Status.EmptyDraft;
        snackbar := Show(TaskAdded, Success);
      } else {
        snackbar := Show(TaskAddFailed, Error);
      }
    }

    /** `handleDeleteTask`, given the answer to the confirmation dialog and
        the outcome of `DELETE /tasks/{id}`. Declining changes nothing; the
        tasks with that id leave the list only when the request resolves. */
    method HandleDeleteTask(taskId: int, confirmed: bool, resolved: bool) returns (sent: seq<Request>)
      modifies this`tasks, this`snackbar
      ensures !confirmed ==> sent == [] && tasks == old(tasks) && snackbar == old(snackbar)
      ensures confirmed ==>
                && sent == [DeleteTask(taskId)]
                && tasks == (if resolved then RemoveTaskById(old(tasks), taskId) else old(tasks))
                && snackbar == (if resolved then Show(TaskDeleted, Success) else Show(TaskDeleteFailed, Error))
    {
      if !confirmed {
        sent := [];
        return;
      }
      sent := [DeleteTask(taskId)];
      if resolved {
        tasks := RemoveTaskById(tasks, taskId);
        snackbar := Show(TaskDeleted, Success);
      } else {
        snackbar := Show(TaskDeleteFailed, Error);
      }
    }

    /** The title, description and status fields of a listed task: the edit
        stays local until the save. */
    method EditTask(taskId: int, edit: TaskEdit)
      modifies this`tasks
      ensures tasks == EditById(old(tasks), taskId, edit)
    {
      tasks := EditById(tasks, taskId, edit);
    }

    /** `handleSave`, given the outcome of `PUT /users/{id}`. With an
        invalid name or email nothing is sent. Otherwise the payload is the
        opened user with its name, email and tasks replaced and its id kept;
        `onSave` gets that same value and `onClose` runs (`saved`, `closed`)
        only when the request resolves. */
    method HandleSave(resolved: bool) returns (sent: seq<Request>, saved: Option<User>, closed: bool)
      modifies this`errors, this`snackbar
      ensures !FormAccepted(name, email) ==>
                && sent == [] && saved == None && !closed
                && errors == old(errors).(name := ValidateEdit(Name, name), email := ValidateEdit(Email, email))
                && snackbar == Show(FormHasErrors, Error)
      ensures FormAccepted(name, email) ==>
                var updated := User(user.id, name, email, tasks);
                && sent == [PutUser(updated)] && errors == old(errors)
                && saved == (if resolved then Some(updated) else None) && closed == resolved
                && snackbar == (if resolved then Show(ChangesSaved, Success) else Show(SaveFailed, Error))
    {
      var nameError := ValidateEdit(Name, name);
      var emailError := ValidateEdit(Email, email);
      if nameError != "" || emailError != "" {
        errors := errors.(name := nameError, email := emailError);
        snackbar := Show(FormHasErrors, Error);
        sent, saved, closed := [], None, false;
        return;
      }
      var updated := user.(name := name, email := email, tasks := tasks);
      sent := [PutUser(updated)];
      if resolved {
        saved, closed := Some(updated), true;
        snackbar := Show(ChangesSaved, Success);
      } else {
        saved, closed := None, false;
        snackbar := Show(SaveFailed, Error);
      }
    }
  }
}

/** The Add-user modal: the draft-task builder and the creation of a user
    followed by one request per drafted task. */
module AddUser {
  import opened Entities
  import opened Validation
  import Status

  const DraftHasErrors := "Corrige los errores en la nueva tarea."
  const TaskAdded := "Tarea agregada con éxito."
  const FormHasErrors := "Corrige los errores en el formulario."
  const UserAdded := "Usuario y tareas agregados con éxito."
  const AddFailed := "Error al agregar el usuario. Por favor, verifica los datos y vuelve a intentarlo."

  /** The inline error message of each field; "" means none. */
  datatype Errors = Errors(name: string, email: string, password: string, title: string, description: string)

  const NoErrors := Errors("", "", "", "", "")

  /** A draft the builder accepts: its title and description pass the
      create rules. */
  predicate DraftAccepted(d: Draft) {
    ValidateCreate(Title, d.title) == "" && ValidateCreate(Description, d.description) == ""
  }

  /** The check `handleAddUser` makes before sending anything. */
  predicate FormAccepted(name: string, email: string, password: string) {
    && ValidateCreate(Name, name) == ""
    && ValidateCreate(Email, email) == ""
    && ValidateCreate(Password, password) == ""
  }

  // ---------------------------------------------------------------------
  // The request sequence of `handleAddUser`

  /** How many task requests the loop sends, given the outcome of each one:
      it goes through them in order and the first rejection ends it. So all
      but the last request sent resolved, and the loop stops before the end
      only right after a rejection. */
  function TasksAttempted(replies: seq<bool>): (k: nat)
    ensures k <= |replies|
    ensures forall i :: 0 <= i < k - 1 ==> replies[i]
    ensures k < |replies| ==> k >= 1 && !replies[k - 1]
  {
    if replies == [] then 0
    else if !replies[0] then 1
    else 1 + TasksAttempted(replies[1..])
  }

  /** Those facts pin the count down: any `k` with them is the count. */
  lemma TasksAttemptedUnique(replies: seq<bool>, k: nat)
    requires k <= |replies|
    requires forall i :: 0 <= i < k - 1 ==> replies[i]
    requires k < |replies| ==> k >= 1 && !replies[k - 1]
    ensures TasksAttempted(replies) == k
  {
  }

  /** One `POST /tasks` per draft, each tagged with the new user's id. */
  function TaskPosts(drafts: seq<Draft>, userId: int): (r: seq<Request>)
    ensures |r| == |drafts|
    ensures forall i :: 0 <= i < |r| ==> r[i] == PostTask(drafts[i], userId)
  {
    if drafts == [] then [] else [PostTask(drafts[0], userId)] + TaskPosts(drafts[1..], userId)
  }

  /** The `for (const task of tasks)` loop of `handleAddUser`: one awaited
      `POST /tasks` per draft, in order, the first rejection leaving the
      loop. Returns the requests sent and whether one was rejected. */
  method PostTasks(drafts: seq<Draft>, userId: int, replies: seq<bool>)
    returns (sent: seq<Request>, rejected: bool)
    requires |replies| == |drafts|
    ensures sent == TaskPosts(drafts[..TasksAttempted(replies)], userId)
    ensures rejected <==> exists i :: 0 <= i < |replies| && !replies[i]
  {
    sent := [];
    rejected := false;
    var k := 0;
    while k < |drafts| && !rejected
      invariant 0 <= k <= |drafts|
      invariant sent == TaskPosts(drafts[..k], userId)
      invariant forall i :: 0 <= i < k - 1 ==> replies[i]
      invariant rejected <==> k >= 1 && !replies[k - 1]
    {
      assert drafts[..k + 1] == drafts[..k] + [drafts[k]];
      assert TaskPosts(drafts[..k + 1], userId) == TaskPosts(drafts[..k], userId) + [PostTask(drafts[k], userId)];
      sent := sent + [PostTask(drafts[k], userId)];
      rejected := !replies[k];
      k := k + 1;
    }
    TasksAttemptedUnique(replies, k);
  }

  /** Every request `handleAddUser` sends once the form is valid: the user
      first, then the drafts in list order up to and including the first
      rejected one. */
  function AddUserRequests(name: string, email: string, password: string, drafts: seq<Draft>,
                           userReply: Outcome<User>, taskReplies: seq<bool>): seq<Request>
    requires |taskReplies| == |drafts|
  {
    [PostUser(name, email, password)] +
    match userReply
    case Rejected => []
    case Resolved(created) => TaskPosts(drafts[..TasksAttempted(taskReplies)], created.id)
  }

  /** Every call made resolved. */
  predicate AllResolved(userReply: Outcome<User>, taskReplies: seq<bool>) {
    userReply.Resolved? && forall i :: 0 <= i < |taskReplies| ==> taskReplies[i]
  }

  /** If creating the user is rejected, no task request is sent. */
  lemma UserRejectedSendsNoTask(name: string, email: string, password: string, drafts: seq<Draft>,
                                taskReplies: seq<bool>)
    requires |taskReplies| == |drafts|
    ensures AddUserRequests(name, email, password, drafts, Rejected, taskReplies) == [PostUser(name, email, password)]
  {
  }

  /** If task `k` is the first rejected one, it is the last request sent:
      the tasks before it were sent and stay created, the later ones are
      never sent. */
  lemma RejectedTaskStopsTheRest(name: string, email: string, password: string, drafts: seq<Draft>,
                                 created: User, taskReplies: seq<bool>, k: nat)
    requires |taskReplies| == |drafts| && k < |drafts|
    requires forall i :: 0 <= i < k ==> taskReplies[i]
    requires !taskReplies[k]
    ensures var sent := AddUserRequests(name, email, password, drafts, Resolved(created), taskReplies);
            && |sent| == k + 2
            && sent[0] == PostUser(name, email, password)
            && (forall i :: 0 <= i <= k ==> sent[i + 1] == PostTask(drafts[i], created.id))
  {
    TasksAttemptedUnique(taskReplies, k + 1);
  }

  /** When every task request resolves, every draft is sent, in order. */
  lemma AllTasksSentWhenAllResolve(name: string, email: string, password: string, drafts: seq<Draft>,
                                   created: User, taskReplies: seq<bool>)
    requires |taskReplies| == |drafts|
    requires forall i :: 0 <= i < |taskReplies| ==> taskReplies[i]
    ensures AddUserRequests(name, email, password, drafts, Resolved(created), taskReplies)
            == [PostUser(name, email, password)] + TaskPosts(drafts, created.id)
  {
    TasksAttemptedUnique(taskReplies, |taskReplies|);
    assert drafts[..|drafts|] == drafts;
  }

  /** Nothing is undone: the flow never sends a delete. */
  lemma NoRollback(name: string, email: string, password: string, drafts: seq<Draft>,
                   userReply: Outcome<User>, taskReplies: seq<bool>)
    requires |taskReplies| == |drafts|
    ensures forall r :: r in AddUserRequests(name, email, password, drafts, userReply, taskReplies) ==>
              r.PostUser? || r.PostTask?
  {
  }

  /** Two drafts, the user created, the first task rejected and the second
      one would resolve: only the first task request is ever sent. */
  lemma FirstTaskRejectedScenario(created: User)
    ensures var d1 := Draft("Informe", "Redactar", Status.Pending);
            var d2 := Draft("Revisión", "Revisar", Status.Pending);
            AddUserRequests("Ana", "ana@mail.com", "Passw0rd", [d1, d2], Resolved(created), [false, true])
            == [PostUser("Ana", "ana@mail.com", "Passw0rd"), PostTask(d1, created.id)]
  {
    var d1 := Draft("Informe", "Redactar", Status.Pending);
    var d2 := Draft("Revisión", "Revisar", Status.Pending);
    assert TasksAttempted([false, true]) == 1;
    assert [d1, d2][..1] == [d1];
  }

  // ---------------------------------------------------------------------
  // The modal's state

  class AddUserForm {
    var name: string
    var email: string
    var password: string
    var tasks: seq<Draft>
    var newTask: Draft
    var errors: Errors
    var snackbar: Snackbar

    /** Only drafts that passed the builder's check are ever listed. */
    ghost predicate Valid()
      reads this`tasks
    {
      forall i :: 0 <= i < |tasks| ==> DraftAccepted(tasks[i])
    }

    constructor()
      ensures Valid()
      ensures name == "" && email == "" && password == "" && tasks == [] && newTask == Status.EmptyDraft
      ensures errors == NoErrors && snackbar == ClosedSnackbar
    {
      name, email, password := "", "", "";
      tasks := [];
      newTask := Status.EmptyDraft;
      errors := NoErrors;
      snackbar := ClosedSnackbar;
    }

    /** The name field's `onChange`: stores the value and its live error. */
    method SetName(value: string)
      modifies this`name, this`errors
      ensures name == value && errors == old(errors).(name := ValidateCreate(Name, value))
    {
      name := value;
      errors := errors.(name := ValidateCreate(Name, value));
    }

    /** The email field's `onChange`. */
    method SetEmail(value: string)
      modifies this`email, this`errors
      ensures email == value && errors == old(errors).(email := ValidateCreate(Email, value))
    {
      email := value;
      errors := errors.(email := ValidateCreate(Email, value));
    }

    /** The password field's `onChange`. */
    method SetPassword(value: string)
      modifies this`password, this`errors
      ensures password == value && errors == old(errors).(password := ValidateCreate(Password, value))
    {
      password := value;
      errors := errors.(password := ValidateCreate(Password, value));
    }

    /** The draft title's `onChange`. */
    method SetDraftTitle(value: string)
      modifies this`newTask, this`errors
      ensures newTask == old(newTask).(title := value)
      ensures errors == old(errors).(title := ValidateCreate(Title, value))
    {
      newTask := newTask.(title := value);
      errors := errors.(title := ValidateCreate(Title, value));
    }

    /** The draft description's `onChange`. */
    method SetDraftDescription(value: string)
      modifies this`newTask, this`errors
      ensures newTask == old(newTask).(description := value)
      ensures errors == old(errors).(description := ValidateCreate(Description, value))
    {
      newTask := newTask.(description := value);
      errors := errors.(description := ValidateCreate(Description, value));
    }

    /** The draft status select's `onChange`; no check applies. */
    method SetDraftStatus(value: string)
      modifies this`newTask
      ensures newTask == old(newTask).(status := value)
    {
      newTask := newTask.(status := value);
    }

    /** `handleAddTask`: a draft with an invalid title or description is
        refused and left as it is; an accepted one is appended and the draft
        goes back to empty and pending. */
    method HandleAddTask()
      requires Valid()
      modifies this`tasks, this`newTask, this`errors, this`snackbar
      ensures Valid()
      ensures !DraftAccepted(old(newTask)) ==>
                && tasks == old(tasks) && newTask == old(newTask)
                && errors == old(errors).(title := ValidateCreate(Title, old(newTask).title),
                                          description := ValidateCreate(Description, old(newTask).description))
                && snackbar == Show(DraftHasErrors, Error)
      ensures DraftAccepted(old(newTask)) ==>
                && tasks == old(tasks) + [old(newTask)] && newTask == Status.EmptyDraft
                && errors == old(errors) && snackbar == Show(TaskAdded, Success)
    {
      var titleError := ValidateCreate(Title, newTask.title);
      var descriptionError := ValidateCreate(Description, newTask.description);
      if titleError != "" || descriptionError != "" {
        errors := errors.(title := titleError, description := descriptionError);
        snackbar := Show(DraftHasErrors, Error);
        return;
      }
      tasks := tasks + [newTask];
      newTask := Status.EmptyDraft;
      snackbar := Show(TaskAdded, Success);
    }

    /** The `try` block of `handleAddUser`: `POST /users`, then one task
        request per draft in order. When every call resolves the form is
        cleared and `onUserAdded` and `onClose` run (`added`, `closed`); the
        first rejection ends the block, keeps the form and runs neither. */
    method Submit(userReply: Outcome<User>, taskReplies: seq<bool>)
      returns (sent: seq<Request>, added: Option<User>, closed: bool)
      requires Valid() && |taskReplies| == |tasks|
      modifies this`name, this`email, this`password, this`tasks, this`snackbar
      ensures Valid()
      ensures sent == AddUserRequests(old(name), old(email), old(password), old(tasks), userReply, taskReplies)
      ensures AllResolved(userReply, taskReplies) ==>
                && name == "" && email == "" && password == "" && tasks == []
                && added == Some(userReply.value) && closed
                && snackbar == Show(UserAdded, Success)
      ensures !AllResolved(userReply, taskReplies) ==>
                && name == old(name) && email == old(email) && password == old(password) && tasks == old(tasks)
                && added == None && !closed
                && snackbar == Show(AddFailed, Error)
    {
      added, closed := None, false;
      sent := [PostUser(name, email, password)];
      if userReply.Rejected? {
        snackbar := Show(AddFailed, Error);
        return;
      }
      var posts, rejected := PostTasks(tasks, userReply.value.id, taskReplies);
      sent := sent + posts;
      if rejected {
        snackbar := Show(AddFailed, Error);
        return;
      }
      snackbar := Show(UserAdded, Success);
      name, email, password := "", "", "";
      tasks := [];
      added, closed := Some(userReply.value), true;
    }

    /** `handleAddUser`, given the outcome of `POST /users` and of each task
        request it may send. With an invalid name, email or password nothing
        is sent. Otherwise the requests are `AddUserRequests`; the form is
        cleared and `onUserAdded` and `onClose` run (`added`, `closed`)
        exactly when every request resolved, and on any rejection the form
        is kept and neither runs. */
    method HandleAddUser(userReply: Outcome<User>, taskReplies: seq<bool>)
      returns (sent: seq<Request>, added: Option<User>, closed: bool)
      requires Valid() && |taskReplies| == |tasks|
      modifies this`name, this`email, this`password, this`tasks, this`errors, this`snackbar
      ensures Valid()
      ensures !FormAccepted(old(name), old(email), old(password)) ==>
                && sent == [] && added == None && !closed
                && name == old(name) && email == old(email) && password == old(password) && tasks == old(tasks)
                && errors == old(errors).(name := ValidateCreate(Name, old(name)),
                                          email := ValidateCreate(Email, old(email)),
                                          password := ValidateCreate(Password, old(password)))
                && snackbar == Show(FormHasErrors, Error)
      ensures FormAccepted(old(name), old(email), old(password)) ==>
                && sent == AddUserRequests(old(name), old(email), old(password), old(tasks), userReply, taskReplies)
                && errors == old(errors)
      ensures FormAccepted(old(name), old(email), old(password)) && AllResolved(userReply, taskReplies) ==>
                && name == "" && email == "" && password == "" && tasks == []
                && added == Some(userReply.value) && closed
                && snackbar == Show(UserAdded, Success)
      ensures FormAccepted(old(name), old(email), old(password)) && !AllResolved(userReply, taskReplies) ==>
                && name == old(name) && email == old(email) && password == old(password) && tasks == old(tasks)
                && added == None && !closed
                && snackbar == Show(AddFailed, Error)
    {
      var nameError := ValidateCreate(Name, name);
      var emailError := ValidateCreate(Email, email);
      var passwordError := ValidateCreate(Password, password);
      if nameError != "" || emailError != "" || passwordError != "" {
        errors := errors.(name := nameError, email := emailError, password := passwordError);
        snackbar := Show(FormHasErrors, Error);
        sent, added, closed := [], None, false;
        return;
      }
      sent, added, closed := Submit(userReply, taskReplies);
    }
  }
}

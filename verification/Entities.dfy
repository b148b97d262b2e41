/** Records shared by the page and its three modals, and the shape of every
    call made to the remote API. */
module Entities {

  datatype Option<+T> = None | Some(value: T)

  /** What one awaited API call does: its promise resolves with the response
      body, or it rejects (network error, non-2xx status). */
  datatype Outcome<+T> = Resolved(value: T) | Rejected

  /** A persisted task; `id` is assigned by the server. */
  datatype Task = Task(id: int, title: string, description: string, status: string)

  /** A user as `GET /users` returns it, with its tasks embedded. */
  datatype User = User(id: int, name: string, email: string, tasks: seq<Task>)

  /** The `newTask` state of both modals: a task not yet sent to the server. */
  datatype Draft = Draft(title: string, description: string, status: string)

  /** One request to the remote API, in the order the core issues them. */
  datatype Request =
    | GetUsers
    | PostUser(name: string, email: string, password: string)
    | PostTask(draft: Draft, userId: int)
    | PutUser(user: User)
    | DeleteUser(userId: int)
    | DeleteTask(taskId: int)

  /** The two severities a notification can carry. */
  datatype Severity = Success | Error

  /** The state of a snackbar: whether it shows, its text and its severity. */
  datatype Snackbar = Snackbar(open: bool, message: string, severity: Severity)

  /** The snackbar before anything was shown. */
  const ClosedSnackbar := Snackbar(false, "", Success)

  /** `showSnackbar(message, severity)`: every handler reports through this. */
  function Show(message: string, severity: Severity): Snackbar {
    Snackbar(true, message, severity)
  }
}

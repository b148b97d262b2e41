# Users and tasks admin page — a Dafny model

This project models the client-side logic of a browser admin page for users and their tasks. The page shows a
paginated table of users. Each user occupies a group of rows, one per task, and a status filter applies to it.
Three modals create, edit and view a user; a confirmation dialog deletes one. Every change goes to a remote
HTTP API.

The model covers:

- the table's presentation rules: the status filter over users and over their tasks, page slicing and the page
  count, the row span of each user's row group, and ordering the list by ascending `id`;
- the page's handlers: loading, refresh after an add, delete, save, page and page-size changes, filter changes;
- the two field validators. The Add modal uses the create rules; the Edit modal uses the looser edit rules.
  The email and password regular expressions become predicates over strings. Each predicate is proved equal to
  a literal reading of its pattern;
- the Add flow: the draft-task builder, then user creation followed by one task request per draft, in order,
  stopping at the first rejection;
- the Edit flow: tasks added and deleted at once, in-row task edits kept locally, and the validated save;
- the status-to-colour and status-to-class mappings, and the view modal's task listing.

Modules, one per component: `Entities` (records, requests, call outcomes, snackbar), `Seqs` (`Array.prototype.filter`),
`Text` (`trim`, `length`), `Validation`, `Status`, `Table` (pure presentation logic of `app/page.tsx`), `Page`
(the page's state and handlers), `AddUser`, `EditUser`, `View`.

The remote API is not modelled as code. A handler takes the outcome of each call it makes as a parameter: a
`Resolved` value or `Rejected`, or a `bool` for calls without a body. It returns the requests it sent, in order.
`window.confirm` is a `bool` parameter. The callbacks a modal receives (`onSave`, `onUserAdded`, `onClose`) are
out-parameters saying whether and with what they were called. Each async handler is one atomic step.

Whitespace, for both `trim()` and the regex class `\s`, is the ECMAScript WhiteSpace and LineTerminator set,
listed in `Text.IsSpace`. String lengths are JavaScript's UTF-16 code-unit counts (`Text.JsLength`).

Behaviour of the code worth knowing, each stated as a lemma or contract:

- A rejected task request ends the Add flow's loop: later drafts are never sent, and the user and tasks already
  created are not undone (`AddUser.FirstTaskRejectedScenario`, `AddUser.NoRollback`).
- The password check refuses every character that is not an ASCII letter or digit, on top of the length, upper-case
  and digit rules (`Validation.PasswordRefusesSymbols`).
- The Edit modal's name check has no length limit (`Validation.EditRulesStrictlyLooser`).
- No handler guards against a second submission while a request is pending: each handler runs whenever it is called.
- A change of filter does not reset the page number, so the page can show no rows (`Page.StalePageShowsNothing`,
  `Page.HomePage.SetFilterStatus`).

## Model

| member | source | states |
|---|---|---|
| `Text.TrimStart` | components/AddUserModal.tsx:48 | the result is a suffix of the input, everything cut off is whitespace, and it is empty or starts with a non-space |
| `Text.TrimEnd` | components/AddUserModal.tsx:48 | the result is a prefix of the input, everything cut off is whitespace, and it is empty or ends with a non-space |
| `Text.IsBlank` | components/AddUserModal.tsx:48 | `value.trim() === ""` holds exactly when no character of the value is visible (all are whitespace) |
| `Text.JsLength` | components/AddUserModal.tsx:49 | the UTF-16 length lies between the code-point count and twice it, and equals the count exactly when every code point is below U+10000 |
| `Text.JsLengthCountsSurrogates` | components/AddUserModal.tsx:49 | the UTF-16 length is exactly the code-point count plus the number of code points at or above U+10000 |
| `Validation.ValidEmailMatchesPattern` | components/AddUserModal.tsx:52 | an address with no whitespace, exactly one `@`, a non-empty local part and an inner dot in the domain matches the email pattern |
| `Validation.PatternMatchIsValidEmail` | components/AddUserModal.tsx:52 | any way of matching the pattern yields such an address |
| `Validation.EmailValidIffPattern` | components/AddUserModal.tsx:52-53 | the address reading and the literal pattern accept exactly the same strings |
| `Validation.ValidPassword` | components/AddUserModal.tsx:55-57 | accepted exactly when both lookaheads find their character, the length is at least 8, and every character is in `[A-Za-z0-9]` |
| `Validation.RequiredText` | components/AddUserModal.tsx:47-65 | the name, title and description checks of the Add modal: a value is accepted exactly when it is non-blank and within the limit; a blank one gets the "required" message, a non-blank one over the limit the "too long" message |
| `Validation.BoundedText` | components/EditUserModal.tsx:69-72 | the title and description checks of the Edit modal: a value is accepted exactly when it is within the limit, blank or not; over it, the "too long" message |
| `Validation.EmailCheck` | components/AddUserModal.tsx:51-53 | the email check of both modals: accepted exactly when the literal pattern matches, otherwise the modal's own message |
| `Validation.ValidateCreateRules` | components/AddUserModal.tsx:45-69 | create rules, field by field: name, title and description non-blank with at most 30, 30 and 100 code units; email matches the pattern; password as above. A blank name, title or description gets that field's own "required" message; a non-blank one over its limit that field's "too long" message; a refused email or password its own message |
| `Validation.ValidateEditRules` | components/EditUserModal.tsx:62-76 | edit rules, field by field: name non-blank with no limit; email as in the create rules; title at most 50 and description at most 200 code units, blanks allowed; password always accepted (the `default` branch). Each refusal carries that field's own edit message |
| `Validation.EditAcceptsWhatCreateAccepts` | components/EditUserModal.tsx:62-76 | for every field, a value the create rules accept is accepted by the edit rules |
| `Validation.EditRulesStrictlyLooser` | components/EditUserModal.tsx:64-72 | a 31-character name and blank title and description pass the edit rules and fail the create rules |
| `Validation.PasswordRefusesSymbols` | components/AddUserModal.tsx:55 | a password holding any character outside `[A-Za-z0-9]` is refused |
| `Validation.PasswordExamples` | components/AddUserModal.tsx:55-57 | `Passw0rd` passes; `Passw0rd!` and `password1` fail |
| `Validation.EmailAccepted` | components/AddUserModal.tsx:52-53 | `ana@mail.com` passes the email check |
| `Validation.EmailTwoAtsRefused` | components/AddUserModal.tsx:52-53 | an address with two `@` fails |
| `Validation.EmailEmptyLocalRefused` | components/AddUserModal.tsx:52-53 | an address with an empty local part fails |
| `Validation.EmailDotAfterAtRefused` | components/AddUserModal.tsx:52-53 | an address whose domain starts with its only dot fails |
| `Status.Parse` | app/page.tsx:196-199 | a string names a status exactly when it is that status's wire name |
| `Status.StatusClass` | app/page.tsx:150-161 | each known status gets its own chip class; any other string gets the bare `task-chip` |
| `Status.StatusColor` | components/ViewUserModal.tsx:40-51 | each known status gets its palette colour; any other string, the empty one included, gets `#BDBDBD` |
| `Status.StatusColorDistinguishes` | components/ViewUserModal.tsx:40-51 | two strings share a colour exactly when they name the same status or both name none |
| `Status.StatusClassDistinguishes` | app/page.tsx:150-161 | two strings share a chip class exactly when they name the same status or both name none |
| `Seqs.Filter` | app/page.tsx:166 | the kept elements are exactly the input's elements the callback accepts, and there are no more of them than inputs |
| `Seqs.FilterAppend` | app/page.tsx:166 | filtering a concatenation is the concatenation of the filtered parts, so input order is kept |
| `Table.FilteredTasks` | app/page.tsx:168-169 | under "Todos" the tasks unchanged; otherwise exactly the tasks in the filtered status |
| `Table.FilteredUsers` | app/page.tsx:163-166 | under "Todos" the whole list; otherwise exactly the users with at least one task in that status |
| `Table.FiltersPreserveOrder` | app/page.tsx:163-169 | both filters keep the original order |
| `Table.SliceBound` | app/page.tsx:173 | a slice bound is clamped into the list and kept as is when already inside it |
| `Table.PageOf` | app/page.tsx:171-173 | the current page is the run of at most `perPage` users starting at entry `(page - 1) * perPage`, of the length that is left |
| `Table.TotalPages` | app/page.tsx:174 | the page count is the least number of pages that holds all filtered users, and 0 when none matches |
| `Table.PagesUpToIsPrefix` | app/page.tsx:171-173 | pages 1 to k together are the first `k * perPage` users |
| `Table.PagesPartitionList` | app/page.tsx:171-174 | pages 1 to `totalPages`, in order, are exactly the filtered list |
| `Table.PageEmptyIffBeyondLast` | app/page.tsx:171-174 | a page is empty exactly when its number is past `totalPages` |
| `Table.RowSpanCoversGroup` | app/page.tsx:230-273 | a user's identity cells span exactly its row group: one identity row followed by its task rows |
| `Table.RowSpanBounds` | app/page.tsx:163-261 | under a status filter every listed user spans at least 2 rows; under "Todos" the span is the task count plus one, so 1 for a user without tasks |
| `Table.OneRowGroupPerUser` | app/page.tsx:230-273 | the identity rows of the table are exactly the page's users, in order |
| `Table.InsertById` | app/page.tsx:81 | inserting into a list sorted by id keeps it sorted and adds exactly that user |
| `Table.SortById` | app/page.tsx:81 | the sort returns a permutation of its input in ascending id order |
| `Table.SortByIdOfSorted` | app/page.tsx:81 | sorting a list already in id order changes nothing |
| `Table.FilterKeepsSorted` | app/page.tsx:112 | removing users from a sorted list keeps it sorted |
| `Table.ReplaceById` | app/page.tsx:125 | same length and same ids in the same places; each entry is kept, or replaced by the saved user when the ids match |
| `Table.ReplaceByIdKeepsSorted` | app/page.tsx:125 | replacing by id keeps the list sorted |
| `Table.RemoveById` | app/page.tsx:112 | exactly the users with another id remain |
| `Table.RemoveByIdKeepsSorted` | app/page.tsx:112 | removing by id keeps the list sorted |
| `Table.SortThenFilterScenario` | app/page.tsx:163-166 | users loaded as ids 5, 2 are stored as 2, 5; the "Pendiente" filter shows only user 2 |
| `Table.SortSwapsTwo` | app/page.tsx:81 | two users in descending id order are stored swapped |
| `Table.FilterKeepsFirstOfTwo` | app/page.tsx:163-166 | of two users, a status filter that only the first matches shows only the first |
| `Page.StalePageShowsNothing` | app/page.tsx:171-192 | a page number past `totalPages`, which a filter change can leave behind, renders no row |
| `Page.HomePage.constructor` | app/page.tsx:53-64 | empty list, page 1, page size 3, no selection, all modals closed, filter "Todos" |
| `Page.HomePage.UpdateUsers` | app/page.tsx:80-82 | the stored list is a permutation of the given one, sorted by id |
| `Page.HomePage.FetchUsers` | app/page.tsx:66-78 | one `GET /users`; the reply is stored sorted; a rejection keeps the list and shows the load error |
| `Page.HomePage.HandleUserAdded` | app/page.tsx:84-91 | one `GET /users`; the reply is stored sorted; a rejection keeps the list and shows nothing |
| `Page.HomePage.HandleEditClick` | app/page.tsx:93-96 | selects the user and opens the edit modal |
| `Page.HomePage.HandleDeleteClick` | app/page.tsx:98-101 | selects the user and opens the delete dialog |
| `Page.HomePage.HandleViewClick` | app/page.tsx:103-106 | selects the user and opens the view modal |
| `Page.HomePage.HandleConfirmDelete` | app/page.tsx:108-122 | no selection: nothing. Otherwise one DELETE; on success the users with that id are removed and the rest keep their order; on failure the list is kept; both close the dialog and clear the selection |
| `Page.HomePage.HandleSaveUser` | app/page.tsx:124-128 | entries with the saved user's id are replaced, the list stays sorted, the edit modal closes and a success notice shows |
| `Page.HomePage.CloseSnackbar` | app/page.tsx:136-138 | hides the notification and keeps its text |
| `Page.HomePage.HandlePageChange` | app/page.tsx:140-142 | sets the page number; nothing else changes |
| `Page.HomePage.HandleItemsPerPageChange` | app/page.tsx:144-148 | sets the page size and always goes back to page 1, so the page is not blank while any user matches the filter |
| `Page.HomePage.SetFilterStatus` | app/page.tsx:190-192 | sets the filter and leaves the page number as it was; when that number is now past the page count, no row is rendered |
| `AddUser.TasksAttempted` | components/AddUserModal.tsx:105-109 | the number of task requests sent: all before the last one sent resolved, and the loop stops early only right after a rejection |
| `AddUser.TaskPosts` | components/AddUserModal.tsx:105-108 | one task request per draft, in order, each tagged with the new user's id |
| `AddUser.PostTasks` | components/AddUserModal.tsx:105-109 | the loop sends exactly the task requests up to and including the first rejected one, and reports whether one was rejected |
| `AddUser.UserRejectedSendsNoTask` | components/AddUserModal.tsx:102-109 | if user creation is rejected, only the user request is sent |
| `AddUser.RejectedTaskStopsTheRest` | components/AddUserModal.tsx:105-109 | if task k is the first rejected one, the user request and tasks 0..k are sent, in order, and nothing after them |
| `AddUser.AllTasksSentWhenAllResolve` | components/AddUserModal.tsx:105-109 | when every task request resolves, every draft is sent, in order |
| `AddUser.NoRollback` | components/AddUserModal.tsx:97-121 | the flow only ever creates; it never sends a delete |
| `AddUser.FirstTaskRejectedScenario` | components/AddUserModal.tsx:102-109 | with two drafts, the user created and the first task rejected, the second task is never sent |
| `AddUser.AddUserForm.constructor` | components/AddUserModal.tsx:29-43 | empty fields, no drafts, the draft empty and pending, no errors |
| `AddUser.AddUserForm.SetName` | components/AddUserModal.tsx:151-153 | stores the value and its live create-rule error |
| `AddUser.AddUserForm.SetEmail` | components/AddUserModal.tsx:164-166 | stores the value and its live create-rule error |
| `AddUser.AddUserForm.SetPassword` | components/AddUserModal.tsx:178-180 | stores the value and its live create-rule error |
| `AddUser.AddUserForm.SetDraftTitle` | components/AddUserModal.tsx:197-199 | updates only the draft's title and its live error |
| `AddUser.AddUserForm.SetDraftDescription` | components/AddUserModal.tsx:209-211 | updates only the draft's description and its live error |
| `AddUser.AddUserForm.SetDraftStatus` | components/AddUserModal.tsx:222 | updates only the draft's status |
| `AddUser.AddUserForm.HandleAddTask` | components/AddUserModal.tsx:71-84 | an invalid draft leaves the list and the draft unchanged and sets both errors; a valid one is appended and the draft resets to empty and pending; only accepted drafts are ever listed |
| `AddUser.AddUserForm.Submit` | components/AddUserModal.tsx:97-121 | the `try` block: the requests are the user then the drafts up to the first rejection; when all resolve the form is cleared and both callbacks run; otherwise the form is kept, neither runs, and the failure notice shows |
| `AddUser.AddUserForm.HandleAddUser` | components/AddUserModal.tsx:86-122 | an invalid name, email or password sends nothing and keeps the form. Otherwise the requests are the user then the drafts up to the first rejection. The form is cleared and `onUserAdded` and `onClose` run exactly when every request resolved |
| `EditUser.EditById` | components/EditUserModal.tsx:233-265 | same length and ids; other tasks untouched; a matching task changes only the edited field, without any length check |
| `EditUser.EditByIdIdempotent` | components/EditUserModal.tsx:233-265 | applying the same in-row edit twice is the same as applying it once |
| `EditUser.RemoveTaskById` | components/EditUserModal.tsx:110 | exactly the tasks with another id remain |
| `EditUser.DeleteDiscardsEdits` | components/EditUserModal.tsx:105-115 | deleting a task after editing it leaves the same list as deleting it unedited |
| `EditUser.EditUserForm.constructor` | components/EditUserModal.tsx:46-60 | fields start from the opened user; the draft is empty and pending; no errors |
| `EditUser.EditUserForm.SetName` | components/EditUserModal.tsx:158-161 | stores the value and its live edit-rule error |
| `EditUser.EditUserForm.SetEmail` | components/EditUserModal.tsx:170-173 | stores the value and its live edit-rule error |
| `EditUser.EditUserForm.SetDraftTitle` | components/EditUserModal.tsx:185-188 | updates only the draft's title and its live error |
| `EditUser.EditUserForm.SetDraftDescription` | components/EditUserModal.tsx:197-200 | updates only the draft's description and its live error |
| `EditUser.EditUserForm.SetDraftStatus` | components/EditUserModal.tsx:208 | updates only the draft's status |
| `EditUser.EditUserForm.HandleAddTask` | components/EditUserModal.tsx:78-103 | an invalid draft sends nothing and changes nothing but the errors. Otherwise one POST tagged with the user's id; on success the returned task is appended and the draft resets; on failure the list and draft stay |
| `EditUser.EditUserForm.HandleDeleteTask` | components/EditUserModal.tsx:105-115 | declined: nothing. Confirmed: one DELETE; on success the tasks with that id are removed and the others keep their order; on failure the list stays |
| `EditUser.EditUserForm.EditTask` | components/EditUserModal.tsx:233-265 | an in-row edit replaces the list by the map-by-id edit of it |
| `EditUser.EditUserForm.HandleSave` | components/EditUserModal.tsx:117-137 | an invalid name or email sends nothing and calls nothing. Otherwise one PUT of the opened user with name, email and tasks replaced and its id kept. `onSave` gets that value and `onClose` runs only when the PUT resolves |
| `View.ViewRows` | components/ViewUserModal.tsx:83-99 | one row per task, in task order, nothing filtered, each chip coloured by its status |
| `View.ViewMatchesUnfilteredTable` | components/ViewUserModal.tsx:83-99 | the view lists the same tasks, in order, as the user's table group under "Todos"; under any filter the table shows no more |

## Left out

- services/api.ts is not part of this model: the remote API is replaced by outcome parameters and the returned request list. URLs, headers and JSON encoding are not modelled.
- The markup: components/ConfirmDeleteModal.tsx, components/SnackbarComponent.tsx, app/layout.tsx, all MUI rendering and CSS beyond the two status mappings.
- The modals' `onClose` lambdas on the page, the "+ NUEVO USUARIO" button and the modal close icons only flip a flag. They are not modelled; a modal's request to close is the `closed` out-parameter.
- The snackbar's 3000 ms auto-hide, and the `console.error` logging.
- React's asynchronous rendering: batched and stale state updates (`{ ...errors }` spread from a stale closure) and interleaving of several pending requests. Each handler is one atomic step.
- The page's initial `snackbarMessage` is `null` in the source; the model uses the empty string.
- `Number(event.target.value)` in the page-size handler: only the select's values 3, 5 and 10 are modelled.
- In the Edit modal a task's `id` is optional; the model gives every listed task an id, so a server reply without one is not modelled.
- The model's task records omit `userId`. The Edit modal's task records carry it (components/EditUserModal.tsx:42,53), and it travels inside the PUT payload; the model's `PutUser` payload has the task records without it.
- Ids are integers: a non-integer or non-numeric id from the server, and the comparator's behaviour on it, are not modelled.
- The Add modal's `onUserAdded` receives the created user, but the page's handler ignores it and fetches the list again. Both are modelled; the argument plays no further part.
- Table.SortById: does not state that the sort is stable (equal ids keep their input order), although the definition is a stable insertion.

/** The read-only view modal: the user's tasks, one row each, with a status
    chip coloured by `getStatusColor`. */
module View {
  import opened Entities
  import opened Status
  import opened Table

  datatype ViewRow = ViewRow(title: string, description: string, status: string, color: string)

  /** `user.tasks.map(...)`: exactly one row per task of the user, in the
      user's order, nothing filtered out. */
  function ViewRows(u: User): (rows: seq<ViewRow>)
    ensures |rows| == |u.tasks|
    ensures forall i :: 0 <= i < |rows| ==>
              var t := u.tasks[i];
              rows[i] == ViewRow(t.title, t.description, t.status, StatusColor(t.status))
    decreases |u.tasks|
  {
    if u.tasks == [] then []
    else
      var t := u.tasks[0];
      var rest := ViewRows(u.(tasks := u.tasks[1..]));
      [ViewRow(t.title, t.description, t.status, StatusColor(t.status))] + rest
  }

  /** The view lists the same tasks, in the same order, as the user's row
      group in the table under "Todos"; under any other filter the table
      shows at most as many. */
  lemma ViewMatchesUnfilteredTable(u: User, filter: string)
    ensures RowSpan(u, AllFilter) == |ViewRows(u)| + 1
    ensures forall i :: 0 <= i < |ViewRows(u)| ==>
              var row := RowGroup(u, AllFilter)[i + 1];
              row.TaskRow? && row.task.title == ViewRows(u)[i].title
              && row.task.description == ViewRows(u)[i].description
              && row.task.status == ViewRows(u)[i].status
    ensures RowSpan(u, filter) <= |ViewRows(u)| + 1
  {
    var group := RowGroup(u, AllFilter);
    var rows := ViewRows(u);
    assert group == [UserRow(u, RowSpan(u, AllFilter))] + TaskRows(u.tasks);
    forall i | 0 <= i < |rows|
      ensures group[i + 1] == TaskRow(u.tasks[i], StatusClass(u.tasks[i].status))
    {
      assert group[i + 1] == TaskRows(u.tasks)[i];
    }
  }
}

/** The presentation logic of the users table: the status filter over users
    and over each user's tasks, pagination, the row groups with their row
    spans, and the ordering of the user list by id. All of it is a pure
    function of the page's state. */
module Table {
  import opened Entities
  import opened Seqs
  import opened Status

  /** The filter value that shows everything. */
  const AllFilter := "Todos"

  // ---------------------------------------------------------------------
  // Filtering

  /** `user.tasks.some((task) => task.status === status)` */
  predicate HasTaskWithStatus(u: User, status: string) {
    exists t :: t in u.tasks && t.status == status
  }

  /** `filteredTasks`: every task under "Todos", otherwise exactly the tasks
      whose status equals the filter. */
  function FilteredTasks(tasks: seq<Task>, filter: string): (r: seq<Task>)
    ensures filter == AllFilter ==> r == tasks
    ensures filter != AllFilter ==> forall t :: t in r <==> t in tasks && t.status == filter
  {
    if filter == AllFilter then tasks else Filter(tasks, (t: Task) => t.status == filter)
  }

  /** `filteredUsers`: every user under "Todos", otherwise exactly the users
      with at least one task in the filtered status. */
  function FilteredUsers(users: seq<User>, filter: string): (r: seq<User>)
    ensures filter == AllFilter ==> r == users
    ensures filter != AllFilter ==> forall u :: u in r <==> u in users && HasTaskWithStatus(u, filter)
  {
    if filter == AllFilter then users else Filter(users, (u: User) => HasTaskWithStatus(u, filter))
  }

  /** Both filters keep the original order: filtering a concatenation is
      the concatenation of the filtered parts. */
  lemma FiltersPreserveOrder(a: seq<User>, b: seq<User>, ts: seq<Task>, us: seq<Task>, filter: string)
    ensures FilteredUsers(a + b, filter) == FilteredUsers(a, filter) + FilteredUsers(b, filter)
    ensures FilteredTasks(ts + us, filter) == FilteredTasks(ts, filter) + FilteredTasks(us, filter)
  {
    if filter != AllFilter {
      FilterAppend(a, b, (u: User) => HasTaskWithStatus(u, filter));
      FilterAppend(ts, us, (t: Task) => t.status == filter);
    }
  }

  // ---------------------------------------------------------------------
  // Pagination

  function Min(a: int, b: int): int { if a <= b then a else b }

  /** How `Array.prototype.slice` resolves one bound: a negative bound counts
      from the end, and every bound is clamped to `[0, len]`. */
  function SliceBound(i: int, len: nat): (b: nat)
    ensures b <= len
    ensures 0 <= i <= len ==> b == i
  {
    if i < 0 then (if len + i < 0 then 0 else len + i)
    else if i > len then len
    else i
  }

  /** `s.slice(start, end)` */
  function JsSlice<T>(s: seq<T>, start: int, end: int): seq<T> {
    var a := SliceBound(start, |s|);
    var b := SliceBound(end, |s|);
    if a < b then s[a..b] else []
  }

  /** For bounds already inside the list, a slice is the plain run between
      them. */
  lemma SliceWithin<T>(s: seq<T>, start: int, end: int)
    requires 0 <= start <= end
    ensures var r := JsSlice(s, start, end);
            && |r| == (if start >= |s| then 0 else Min(end, |s|) - start)
            && forall i :: 0 <= i < |r| ==> r[i] == s[start + i]
  {
  }

  lemma MulLe(a: int, b: int, n: nat)
    requires a <= b
    ensures a * n <= b * n
  {
  }

  /** `currentUsers`: `slice(indexOfFirstItem, indexOfLastItem)` with
      `indexOfLastItem = page * perPage`. For a real page and page size it
      is the run of at most `perPage` entries starting at entry
      `(page - 1) * perPage`. */
  function PageOf<T>(s: seq<T>, page: int, perPage: int): (r: seq<T>)
    ensures page >= 1 && perPage >= 1 ==>
              var first := (page - 1) * perPage;
              && |r| == (if first >= |s| then 0 else Min(perPage, |s| - first))
              && forall i :: 0 <= i < |r| ==> r[i] == s[first + i]
  {
    var last := page * perPage;
    if page >= 1 && perPage >= 1 then
      var first := (page - 1) * perPage;
      assert last - perPage == first;
      MulLe(0, page - 1, perPage);
      SliceWithin(s, first, last);
      JsSlice(s, last - perPage, last)
    else
      JsSlice(s, last - perPage, last)
  }

  /** `totalPages = Math.ceil(count / perPage)`: the fewest pages of
      `perPage` entries that hold `count` entries; zero when there are none. */
  function TotalPages(count: nat, perPage: int): (pages: nat)
    requires perPage >= 1
    ensures pages * perPage >= count
    ensures pages > 0 ==> (pages - 1) * perPage < count
    ensures pages == 0 <==> count == 0
  {
    var q := (count + perPage - 1) / perPage;
    var r := (count + perPage - 1) % perPage;
    assert count + perPage - 1 == q * perPage + r && 0 <= r < perPage;
    assert (q - 1) * perPage == q * perPage - perPage;
    q
  }

  /** Pages 1 to `k`, one after the other. */
  function PagesUpTo<T>(s: seq<T>, perPage: int, k: nat): seq<T> {
    if k == 0 then [] else PagesUpTo(s, perPage, k - 1) + PageOf(s, k, perPage)
  }

  /** The first `k` pages are exactly the first `k * perPage` entries. */
  lemma {:induction false} PagesUpToIsPrefix<T>(s: seq<T>, perPage: int, k: nat)
    requires perPage >= 1
    ensures PagesUpTo(s, perPage, k) == s[..Min(k * perPage, |s|)]
  {
    if k > 0 {
      PagesUpToIsPrefix(s, perPage, k - 1);
      var first := (k - 1) * perPage;
      assert k * perPage == first + perPage;
      var page := PageOf(s, k, perPage);
      if first >= |s| {
        assert page == [];
      } else {
        assert page == s[first..Min(k * perPage, |s|)];
        assert s[..first] + s[first..Min(k * perPage, |s|)] == s[..Min(k * perPage, |s|)];
      }
    }
  }

  /** Pages 1 to `totalPages` partition the list: together, in order, they
      are the whole list. */
  lemma PagesPartitionList<T>(s: seq<T>, perPage: int)
    requires perPage >= 1
    ensures PagesUpTo(s, perPage, TotalPages(|s|, perPage)) == s
  {
    PagesUpToIsPrefix(s, perPage, TotalPages(|s|, perPage));
  }

  /** Which pages show something: every page from 1 to `totalPages`, and no
      page after it. */
  lemma PageEmptyIffBeyondLast<T>(s: seq<T>, page: int, perPage: int)
    requires page >= 1 && perPage >= 1
    ensures PageOf(s, page, perPage) == [] <==> page > TotalPages(|s|, perPage)
  {
    var pages := TotalPages(|s|, perPage);
    if page > pages {
      MulLe(pages, page - 1, perPage);
    } else {
      MulLe(page - 1, pages - 1, perPage);
    }
  }

  // ---------------------------------------------------------------------
  // Row groups

  /** One rendered table row: a user's identity row, whose action, id, name
      and email cells span `rowSpan` rows, or one task row. */
  datatype Row = UserRow(user: User, rowSpan: nat) | TaskRow(task: Task, chipClass: string)

  /** The `rowSpan` of a user's identity cells. */
  function RowSpan(u: User, filter: string): nat {
    |FilteredTasks(u.tasks, filter)| + 1
  }

  function TaskRows(tasks: seq<Task>): seq<Row> {
    seq(|tasks|, i requires 0 <= i < |tasks| => TaskRow(tasks[i], StatusClass(tasks[i].status)))
  }

  /** The rows one user contributes: its identity row, then one row per
      visible task. */
  function RowGroup(u: User, filter: string): seq<Row> {
    [UserRow(u, RowSpan(u, filter))] + TaskRows(FilteredTasks(u.tasks, filter))
  }

  /** The rows of a page of users, group after group. */
  function TableRows(users: seq<User>, filter: string): seq<Row> {
    if users == [] then [] else RowGroup(users[0], filter) + TableRows(users[1..], filter)
  }

  /** The identity cells span their own row group exactly: the group is one
      identity row followed by `rowSpan - 1` task rows. */
  lemma RowSpanCoversGroup(u: User, filter: string)
    ensures var g := RowGroup(u, filter);
            g[0].UserRow? && g[0].rowSpan == |g| && forall i :: 1 <= i < |g| ==> g[i].TaskRow?
  {
  }

  /** Under a status filter every listed user has a visible task, so its
      span is at least 2; under "Todos" the span counts all tasks, so a user
      without tasks spans a single row. */
  lemma RowSpanBounds(users: seq<User>, u: User, filter: string)
    requires u in FilteredUsers(users, filter)
    ensures filter != AllFilter ==> RowSpan(u, filter) >= 2
    ensures filter == AllFilter ==> RowSpan(u, filter) == |u.tasks| + 1
  {
    if filter != AllFilter {
      var t :| t in u.tasks && t.status == filter;
      assert t in FilteredTasks(u.tasks, filter);
    }
  }

  /** The users whose identity rows appear in `rows`, in order. */
  function IdentityRows(rows: seq<Row>): seq<User> {
    if rows == [] then []
    else (if rows[0].UserRow? then [rows[0].user] else []) + IdentityRows(rows[1..])
  }

  lemma {:induction false} IdentityRowsAppend(a: seq<Row>, b: seq<Row>)
    ensures IdentityRows(a + b) == IdentityRows(a) + IdentityRows(b)
  {
    if a == [] {
      assert a + b == b;
    } else {
      assert (a + b)[0] == a[0];
      assert (a + b)[1..] == a[1..] + b;
      IdentityRowsAppend(a[1..], b);
    }
  }

  lemma {:induction false} NoIdentityInTaskRows(tasks: seq<Task>)
    ensures IdentityRows(TaskRows(tasks)) == []
  {
    if tasks != [] {
      assert TaskRows(tasks)[1..] == TaskRows(tasks[1..]);
      NoIdentityInTaskRows(tasks[1..]);
    }
  }

  /** Each user of the page renders exactly one identity row, in page
      order. */
  lemma {:induction false} OneRowGroupPerUser(users: seq<User>, filter: string)
    ensures IdentityRows(TableRows(users, filter)) == users
  {
    if users != [] {
      var u := users[0];
      IdentityRowsAppend(RowGroup(u, filter), TableRows(users[1..], filter));
      IdentityRowsAppend([UserRow(u, RowSpan(u, filter))], TaskRows(FilteredTasks(u.tasks, filter)));
      NoIdentityInTaskRows(FilteredTasks(u.tasks, filter));
      OneRowGroupPerUser(users[1..], filter);
    }
  }

  // ---------------------------------------------------------------------
  // Ordering by id

  /** Ascending by `id`, the order `sort((a, b) => a.id - b.id)` yields. */
  predicate SortedById(us: seq<User>) {
    forall i, j :: 0 <= i < j < |us| ==> us[i].id <= us[j].id
  }

  /** An entry that is not above `lo` and not above anything in `us` is not
      above anything after inserting `u` into `us`, provided `lo <= u.id`. */
  lemma BoundAfterInsert(lo: int, u: User, us: seq<User>, rest: seq<User>)
    requires lo <= u.id
    requires forall k :: 0 <= k < |us| ==> lo <= us[k].id
    requires multiset(rest) == multiset(us) + multiset{u}
    ensures forall j :: 0 <= j < |rest| ==> lo <= rest[j].id
  {
    forall j | 0 <= j < |rest| ensures lo <= rest[j].id {
      var x := rest[j];
      assert x in multiset(rest);
      if x != u {
        assert x in multiset(us);
        var k :| 0 <= k < |us| && us[k] == x;
      }
    }
  }

  /** Inserts `u` before the first entry whose id is not smaller. */
  function InsertById(u: User, us: seq<User>): (r: seq<User>)
    requires SortedById(us)
    ensures SortedById(r)
    ensures multiset(r) == multiset(us) + multiset{u}
  {
    if us == [] || u.id <= us[0].id then [u] + us
    else
      var rest := InsertById(u, us[1..]);
      BoundAfterInsert(us[0].id, u, us[1..], rest);
      assert us == [us[0]] + us[1..];
      [us[0]] + rest
  }

  /** The comparator sort: a permutation of its input, ascending by id. */
  function SortById(us: seq<User>): (r: seq<User>)
    ensures SortedById(r)
    ensures multiset(r) == multiset(us)
  {
    if us == [] then []
    else
      assert us == [us[0]] + us[1..];
      InsertById(us[0], SortById(us[1..]))
  }

  /** Sorting a list that is already in order changes nothing. */
  lemma {:induction false} SortByIdOfSorted(us: seq<User>)
    requires SortedById(us)
    ensures SortById(us) == us
  {
    if us != [] {
      SortByIdOfSorted(us[1..]);
      assert us == [us[0]] + us[1..];
    }
  }

  /** Removing entries keeps the rest in order. */
  lemma {:induction false} FilterKeepsSorted(us: seq<User>, keep: User -> bool)
    requires SortedById(us)
    ensures SortedById(Filter(us, keep))
  {
    if us != [] {
      FilterKeepsSorted(us[1..], keep);
      var rest := Filter(us[1..], keep);
      assert forall x :: x in rest ==> us[0].id <= x.id by {
        forall x | x in rest ensures us[0].id <= x.id {
          var k :| 0 <= k < |us[1..]| && us[1..][k] == x;
          assert x == us[k + 1];
        }
      }
    }
  }

  /** `users.map((user) => (user.id === updated.id ? updated : user))`:
      same length, same ids in the same places; an entry is either kept or
      replaced by `updated`. */
  function ReplaceById(us: seq<User>, updated: User): (r: seq<User>)
    ensures |r| == |us|
    ensures forall i :: 0 <= i < |r| ==> r[i].id == us[i].id
    ensures forall i :: 0 <= i < |r| ==> r[i] == (if us[i].id == updated.id then updated else us[i])
  {
    seq(|us|, i requires 0 <= i < |us| => if us[i].id == updated.id then updated else us[i])
  }

  /** Replacing by id keeps the list in order, since no id moves. */
  lemma ReplaceByIdKeepsSorted(us: seq<User>, updated: User)
    requires SortedById(us)
    ensures SortedById(ReplaceById(us, updated))
  {
  }

  /** `users.filter((user) => user.id !== id)` */
  function RemoveById(us: seq<User>, id: int): (r: seq<User>)
    ensures forall u :: u in r <==> u in us && u.id != id
  {
    Filter(us, (u: User) => u.id != id)
  }

  /** Removing by id keeps the list in order. */
  lemma RemoveByIdKeepsSorted(us: seq<User>, id: int)
    requires SortedById(us)
    ensures SortedById(RemoveById(us, id))
  {
    FilterKeepsSorted(us, (u: User) => u.id != id);
  }

  /** Two users loaded out of order are stored in ascending id order, and
      filtering on "Pendiente" shows only the one with a pending task. */
  lemma SortThenFilterScenario()
    ensures var u5 := User(5, "Ana", "ana@mail.com", [Task(1, "t1", "d1", "Completada")]);
            var u2 := User(2, "Luis", "luis@mail.com", [Task(2, "t2", "d2", "Pendiente")]);
            SortById([u5, u2]) == [u2, u5] && FilteredUsers(SortById([u5, u2]), "Pendiente") == [u2]
  {
    var u5 := User(5, "Ana", "ana@mail.com", [Task(1, "t1", "d1", "Completada")]);
    var u2 := User(2, "Luis", "luis@mail.com", [Task(2, "t2", "d2", "Pendiente")]);
    SortSwapsTwo(u5, u2);
    assert u2.tasks[0] in u2.tasks;
    FilterKeepsFirstOfTwo(u2, u5, "Pendiente");
  }

  /** Two users in descending id order come out swapped. */
  lemma SortSwapsTwo(a: User, b: User)
    requires b.id < a.id
    ensures SortById([a, b]) == [b, a]
  {
    assert SortById([b]) == [b];
    assert [a, b][1..] == [b];
    assert InsertById(a, [b]) == [b] + InsertById(a, []);
  }

  /** Of two users, a filter that matches only the first keeps only it. */
  lemma FilterKeepsFirstOfTwo(a: User, b: User, filter: string)
    requires filter != AllFilter
    requires HasTaskWithStatus(a, filter) && !HasTaskWithStatus(b, filter)
    ensures FilteredUsers([a, b], filter) == [a]
  {
    var keep := (u: User) => HasTaskWithStatus(u, filter);
    assert [a, b][1..] == [b];
    assert Filter([b], keep) == [] + Filter([b][1..], keep);
  }
}

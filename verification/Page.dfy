/** The page component: its state and the handlers that update it. Each
    handler is one atomic step; the outcome of every remote call it makes is
    a parameter, and the requests it issues are returned in order. */
module Page {
  import opened Entities
  import opened Table

  const LoadFailed := "Error al cargar los usuarios"
  const DeleteSucceeded := "Usuario eliminado con éxito"
  const DeleteFailed := "Error al eliminar usuario"
  const SaveSucceeded := "Usuario actualizado con éxito"

  /** The page sizes the select offers; 3 is the initial one. */
  const PageSizes := {3, 5, 10}
  const InitialPageSize := 3

  /** A page whose number is past the last one shows no row at all. This is
      what a filter change can leave behind, since it does not reset the
      page. */
  lemma StalePageShowsNothing(users: seq<User>, filter: string, page: int, perPage: int)
    requires page >= 1 && perPage >= 1
    requires page > TotalPages(|FilteredUsers(users, filter)|, perPage)
    ensures TableRows(PageOf(FilteredUsers(users, filter), page, perPage), filter) == []
  {
    PageEmptyIffBeyondLast(FilteredUsers(users, filter), page, perPage);
  }

  class HomePage {
    var users: seq<User>
    var currentPage: int
    var itemsPerPage: int
    var selectedUser: Option<User>
    var isEditModalOpen: bool
    var isDeleteModalOpen: bool
    var isViewModalOpen: bool
    var isAddModalOpen: bool
    var snackbar: Snackbar
    var filterStatus: string

    /** What every handler keeps: the list in ascending id order, and a
        positive page number and page size. */
    ghost predicate Valid()
      reads this
    {
      SortedById(users) && currentPage >= 1 && itemsPerPage >= 1
    }

    constructor()
      ensures Valid()
      ensures users == [] && currentPage == 1 && itemsPerPage == InitialPageSize
      ensures selectedUser == None && filterStatus == AllFilter && snackbar == ClosedSnackbar
      ensures !isEditModalOpen && !isDeleteModalOpen && !isViewModalOpen && !isAddModalOpen
    {
      users := [];
      currentPage := 1;
      itemsPerPage := InitialPageSize;
      selectedUser := None;
      isEditModalOpen, isDeleteModalOpen, isViewModalOpen, isAddModalOpen := false, false, false, false;
      snackbar := ClosedSnackbar;
      filterStatus := AllFilter;
    }

    // -------------------------------------------------------------------
    // What is rendered

    /** `filteredUsers` */
    function VisibleUsers(): seq<User>
      reads this
    {
      FilteredUsers(users, filterStatus)
    }

    /** `currentUsers` */
    function CurrentUsers(): seq<User>
      reads this
    {
      PageOf(VisibleUsers(), currentPage, itemsPerPage)
    }

    /** `totalPages` */
    function PageCount(): nat
      reads this
      requires itemsPerPage >= 1
    {
      TotalPages(|VisibleUsers()|, itemsPerPage)
    }

    /** The body rows of the table. */
    function Rows(): seq<Row>
      reads this
    {
      TableRows(CurrentUsers(), filterStatus)
    }

    // -------------------------------------------------------------------
    // Handlers

    /** `updateUsers`: stores the given list sorted by ascending id. */
    method UpdateUsers(updated: seq<User>)
      modifies this`users
      ensures users == SortById(updated)
      ensures SortedById(users) && multiset(users) == multiset(updated)
    {
      users := SortById(updated);
    }

    /** The initial `GET /users`: the reply is stored sorted; a rejection
        keeps the list and reports an error. */
    method FetchUsers(reply: Outcome<seq<User>>) returns (sent: seq<Request>)
      requires Valid()
      modifies this`users, this`snackbar
      ensures Valid()
      ensures sent == [GetUsers]
      ensures reply.Resolved? ==> users == SortById(reply.value) && snackbar == old(snackbar)
      ensures reply.Rejected? ==> users == old(users) && snackbar == Show(LoadFailed, Error)
    {
      sent := [GetUsers];
      if reply.Resolved? {
        users := SortById(reply.value);
      } else {
        snackbar := Show(LoadFailed, Error);
      }
    }

    /** `handleUserAdded`, the Add modal's `onUserAdded`: fetches the list
        again; a rejection is only logged, so the list stays as it was. */
    method HandleUserAdded(reply: Outcome<seq<User>>) returns (sent: seq<Request>)
      requires Valid()
      modifies this`users
      ensures Valid()
      ensures sent == [GetUsers]
      ensures users == if reply.Resolved? then SortById(reply.value) else old(users)
    {
      sent := [GetUsers];
      if reply.Resolved? {
        users := SortById(reply.value);
      }
    }

    /** `handleEditClick` */
    method HandleEditClick(u: User)
      modifies this`selectedUser, this`isEditModalOpen
      ensures selectedUser == Some(u) && isEditModalOpen
    {
      selectedUser := Some(u);
      isEditModalOpen := true;
    }

    /** `handleDeleteClick` */
    method HandleDeleteClick(u: User)
      modifies this`selectedUser, this`isDeleteModalOpen
      ensures selectedUser == Some(u) && isDeleteModalOpen
    {
      selectedUser := Some(u);
      isDeleteModalOpen := true;
    }

    /** `handleViewClick` */
    method HandleViewClick(u: User)
      modifies this`selectedUser, this`isViewModalOpen
      ensures selectedUser == Some(u) && isViewModalOpen
    {
      selectedUser := Some(u);
      isViewModalOpen := true;
    }

    /** `handleConfirmDelete`, given whether `DELETE /users/{id}` resolved.
        With no selection nothing happens. Otherwise the users with that id
        leave the list only if the call resolved (the rest stay, in order),
        and in both cases the dialog closes and the selection clears. */
    method HandleConfirmDelete(resolved: bool) returns (sent: seq<Request>)
      requires Valid()
      modifies this`users, this`snackbar, this`isDeleteModalOpen, this`selectedUser
      ensures Valid()
      ensures old(selectedUser).None? ==>
                && sent == [] && users == old(users) && snackbar == old(snackbar)
                && isDeleteModalOpen == old(isDeleteModalOpen) && selectedUser == None
      ensures old(selectedUser).Some? ==>
                var id := old(selectedUser).value.id;
                && sent == [DeleteUser(id)]
                && users == (if resolved then RemoveById(old(users), id) else old(users))
                && snackbar == (if resolved then Show(DeleteSucceeded, Success) else Show(DeleteFailed, Error))
                && !isDeleteModalOpen && selectedUser == None
    {
      if selectedUser.Some? {
        var id := selectedUser.value.id;
        sent := [DeleteUser(id)];
        if resolved {
          var remaining := RemoveById(users, id);
          RemoveByIdKeepsSorted(users, id);
          SortByIdOfSorted(remaining);
          UpdateUsers(remaining);
          snackbar := Show(DeleteSucceeded, Success);
        } else {
          snackbar := Show(DeleteFailed, Error);
        }
        isDeleteModalOpen := false;
        selectedUser := None;
      } else {
        sent := [];
      }
    }

    /** `handleSaveUser`, the Edit modal's `onSave`: the entries with the
        saved user's id are replaced by it; nothing moves, nothing else
        changes. */
    method HandleSaveUser(updated: User)
      requires Valid()
      modifies this`users, this`isEditModalOpen, this`snackbar
      ensures Valid()
      ensures users == ReplaceById(old(users), updated)
      ensures !isEditModalOpen && snackbar == Show(SaveSucceeded, Success)
    {
      var replaced := ReplaceById(users, updated);
      ReplaceByIdKeepsSorted(users, updated);
      SortByIdOfSorted(replaced);
      assert SortById(replaced) == replaced;
      UpdateUsers(replaced);
      isEditModalOpen := false;
      snackbar := Show(SaveSucceeded, Success);
    }

    /** `closeSnackbar`: hides the notification and keeps its text. */
    method CloseSnackbar()
      modifies this`snackbar
      ensures snackbar == old(snackbar).(open := false)
    {
      snackbar := snackbar.(open := false);
    }

    /** `handlePageChange`; the pagination control only offers pages from 1. */
    method HandlePageChange(page: int)
      requires Valid() && page >= 1
      modifies this`currentPage
      ensures Valid() && currentPage == page
    {
      currentPage := page;
    }

    /** `handleItemsPerPageChange`: a new page size always goes back to
        page 1, so the page shows users whenever any user matches the
        filter. */
    method HandleItemsPerPageChange(perPage: int)
      requires Valid() && perPage in PageSizes
      modifies this`itemsPerPage, this`currentPage
      ensures Valid() && itemsPerPage == perPage && currentPage == 1
      ensures VisibleUsers() != [] ==> CurrentUsers() != []
    {
      itemsPerPage := perPage;
      currentPage := 1;
      PageEmptyIffBeyondLast(VisibleUsers(), currentPage, itemsPerPage);
    }

    /** The status select's `onChange`: only the filter changes, the page
        number stays (see `StalePageShowsNothing`). */
    method SetFilterStatus(filter: string)
      requires Valid()
      modifies this`filterStatus
      ensures Valid() && filterStatus == filter
      ensures currentPage > PageCount() ==> Rows() == []
    {
      filterStatus := filter;
      if currentPage > PageCount() {
        StalePageShowsNothing(users, filter, currentPage, itemsPerPage);
      }
    }
  }
}

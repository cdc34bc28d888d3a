/**
 * The admin dashboard component: its state and the event handlers that
 * change it. Each call to the hosted store is replaced by a `storeOk` flag
 * saying whether the store reported success, and each confirmation dialog by
 * a `confirmed` flag. On a store error the handler only alerts, so local state
 * stays as it was.
 */
module Dashboard {
  import opened Sequences
  import opened Text
  import opened Leads
  import opened Wrappers
  import opened Filtering
  import opened LocalUpdates
  import Csv

  /** The password the login form compares against. */
  const AdminPassword: string := "admin123"

  class AdminDashboard {
    var isAuthenticated: bool
    var password: string
    var submissions: seq<Submission>
    var filteredSubmissions: seq<Submission>
    var settings: map<string, bool>
    var filterService: string
    var filterStatus: string
    var sortOrder: string
    var searchQuery: string
    var selectedIds: seq<Id>

    /**
     * Ids are unique in both lists, as the table's primary key makes them,
     * and the selection never holds an id twice.
     */
    ghost predicate Valid()
      reads this
    {
      && UniqueIds(submissions)
      && UniqueIds(filteredSubmissions)
      && NoDuplicates(selectedIds)
    }

    /** The initial state of the component's hooks. */
    constructor ()
      ensures Valid()
      ensures !isAuthenticated && password == []
      ensures submissions == [] && filteredSubmissions == [] && selectedIds == []
      ensures settings == DefaultSettings
      ensures filterService == All && filterStatus == All && sortOrder == Descending && searchQuery == []
    {
      isAuthenticated := false;
      password := [];
      submissions := [];
      filteredSubmissions := [];
      settings := DefaultSettings;
      filterService := All;
      filterStatus := All;
      sortOrder := Descending;
      searchQuery := [];
      selectedIds := [];
    }

    /**
     * `loadSubmissions()` once the store has answered: `data || []` becomes
     * both lists.
     */
    method LoadSubmissions(storeOk: bool, data: Option<seq<Submission>>)
      requires Valid()
      requires UniqueIds(data.GetOr([]))
      modifies this`submissions, this`filteredSubmissions
      ensures Valid()
      ensures storeOk ==> submissions == data.GetOr([]) && filteredSubmissions == data.GetOr([])
      ensures !storeOk ==> submissions == old(submissions) && filteredSubmissions == old(filteredSubmissions)
    {
      if storeOk {
        var rows := data.GetOr([]);
        submissions := rows;
        filteredSubmissions := rows;
      }
    }

    /** `handleLogin`: the right password logs in; the field is cleared either way. */
    method HandleLogin()
      modifies this`isAuthenticated, this`password
      ensures password == []
      ensures isAuthenticated == (old(password) == AdminPassword || old(isAuthenticated))
    {
      if password == AdminPassword {
        isAuthenticated := true;
        password := [];
      } else {
        password := [];
      }
    }

    /** `handleLogout`. */
    method HandleLogout()
      modifies this`isAuthenticated, this`password
      ensures !isAuthenticated && password == []
    {
      isAuthenticated := false;
      password := [];
    }

    /** `toggleSetting(key)`: flips one setting and leaves the others alone. */
    method ToggleSetting(key: string)
      modifies this`settings
      ensures settings == ToggledSetting(old(settings), key)
      ensures settings.Keys == old(settings).Keys + {key}
      ensures forall k :: k in old(settings) && k != key ==> settings[k] == old(settings)[k]
    {
      settings := ToggledSetting(settings, key);
    }

    /**
     * `applyFilters()`: narrows a copy of the loaded list by the search text,
     * the service filter and the status filter in turn, then sorts it by date.
     */
    method ApplyFilters()
      requires Valid()
      modifies this`filteredSubmissions
      ensures Valid()
      ensures filteredSubmissions == Visible(submissions, searchQuery, filterService, filterStatus, sortOrder)
      ensures SortedByDate(filteredSubmissions, sortOrder == Descending)
      ensures forall x :: multiset(filteredSubmissions)[x]
                       == if Shown(x, searchQuery, filterService, filterStatus) then multiset(submissions)[x] else 0
    {
      var filtered := submissions;
      if searchQuery != [] {
        var query := Lower(searchQuery);
        SearchStep(submissions, searchQuery, query);
        filtered := Filter(filtered, (sub: Submission) => MatchesQuery(sub, query));
      } else {
        SearchStep(submissions, searchQuery, Lower(searchQuery));
      }
      assert filtered == AfterSearch(submissions, searchQuery);

      ServiceStep(submissions, searchQuery, filterService);
      if filterService != All {
        var service := filterService;
        filtered := Filter(filtered, (sub: Submission) => sub.service == service);
      }
      assert filtered == AfterService(submissions, searchQuery, filterService);

      StatusStep(submissions, searchQuery, filterService, filterStatus);
      if filterStatus != All {
        var status := filterStatus;
        filtered := Filter(filtered, (sub: Submission) => sub.status == status);
      }
      assert filtered == Matching(submissions, searchQuery, filterService, filterStatus);

      filteredSubmissions := SortByDate(filtered, sortOrder == Descending);
      VisibleUniqueIds(submissions, searchQuery, filterService, filterStatus, sortOrder);
    }

    /**
     * `updateStatus(id, newStatus)`: once the store accepts, every record with
     * that id takes the new status.
     */
    method UpdateStatus(id: Id, newStatus: string, storeOk: bool)
      requires Valid()
      modifies this`submissions
      ensures Valid()
      ensures submissions == if storeOk then MarkStatus(old(submissions), [id], newStatus) else old(submissions)
    {
      if storeOk {
        submissions := MarkStatus(submissions, [id], newStatus);
        MarkStatusKeepsIds(old(submissions), [id], newStatus);
      }
    }

    /**
     * `deleteSubmission(id)`: after confirmation and a successful store call,
     * the records with that id leave the list and the id leaves the selection.
     */
    method DeleteSubmission(id: Id, confirmed: bool, storeOk: bool)
      requires Valid()
      modifies this`submissions, this`selectedIds
      ensures Valid()
      ensures confirmed && storeOk ==>
        submissions == RemoveIds(old(submissions), [id]) && selectedIds == Without(old(selectedIds), id)
      ensures !(confirmed && storeOk) ==>
        submissions == old(submissions) && selectedIds == old(selectedIds)
    {
      if !confirmed {
        return;
      }
      if storeOk {
        submissions := RemoveIds(submissions, [id]);
        selectedIds := Without(selectedIds, id);
        UniqueIdsOfSubMultiset(old(submissions), submissions);
        FilterNoDuplicates(old(selectedIds), (x: Id) => x != id);
      }
    }

    /**
     * `bulkDelete()`: with a non-empty, confirmed selection and a successful
     * store call, every selected record leaves the list and the selection is
     * cleared.
     */
    method BulkDelete(confirmed: bool, storeOk: bool)
      requires Valid()
      modifies this`submissions, this`selectedIds
      ensures Valid()
      ensures old(selectedIds) != [] && confirmed && storeOk ==>
        submissions == RemoveIds(old(submissions), old(selectedIds)) && selectedIds == []
      ensures !(old(selectedIds) != [] && confirmed && storeOk) ==>
        submissions == old(submissions) && selectedIds == old(selectedIds)
    {
      if |selectedIds| == 0 {
        return;
      }
      if !confirmed {
        return;
      }
      if storeOk {
        submissions := RemoveIds(submissions, selectedIds);
        selectedIds := [];
        UniqueIdsOfSubMultiset(old(submissions), submissions);
      }
    }

    /**
     * `bulkUpdateStatus(newStatus)`: with a non-empty selection and a
     * successful store call, every selected record takes the new status and
     * the selection is cleared.
     */
    method BulkUpdateStatus(newStatus: string, storeOk: bool)
      requires Valid()
      modifies this`submissions, this`selectedIds
      ensures Valid()
      ensures old(selectedIds) != [] && storeOk ==>
        submissions == MarkStatus(old(submissions), old(selectedIds), newStatus) && selectedIds == []
      ensures !(old(selectedIds) != [] && storeOk) ==>
        submissions == old(submissions) && selectedIds == old(selectedIds)
    {
      if |selectedIds| == 0 {
        return;
      }
      if storeOk {
        submissions := MarkStatus(submissions, selectedIds, newStatus);
        MarkStatusKeepsIds(old(submissions), old(selectedIds), newStatus);
        selectedIds := [];
      }
    }

    /** `toggleSelect(id)`. */
    method ToggleSelect(id: Id)
      requires Valid()
      modifies this`selectedIds
      ensures Valid()
      ensures selectedIds == ToggledSelection(old(selectedIds), id)
    {
      ToggleKeepsNoDuplicates(selectedIds, id);
      selectedIds := ToggledSelection(selectedIds, id);
    }

    /** `toggleSelectAll()`, against the list currently shown. */
    method ToggleSelectAll()
      requires Valid()
      modifies this`selectedIds
      ensures Valid()
      ensures selectedIds == SelectAllToggled(old(selectedIds), filteredSubmissions)
    {
      selectedIds := SelectAllToggled(selectedIds, filteredSubmissions);
    }

    /** The CSV text `exportToCSV()` offers for download, if any. */
    method ExportToCsv(dateText: int -> string) returns (csv: Option<string>)
      ensures csv == Csv.ExportToCsv(submissions, dateText)
      ensures csv.None? <==> submissions == []
    {
      csv := Csv.ExportToCsv(submissions, dateText);
    }
  }
}

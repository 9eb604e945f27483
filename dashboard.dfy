/** The `AdminDashboard` component as an object: its state fields, the three
    loads, the two mutations and the selection of one employee's history.

    React state updates are modelled as sequential field updates: a load that
    follows another in the same handler sees the fields the first one set. */
module AdminDashboard {
  import opened Records
  import opened Sequences
  import opened Store
  import opened AccessPolicy
  import opened Aggregation
  import opened Counting

  /** Every row is what the aggregator builds for its profile: the total is the
      number of its transactions, each of them is that employee's, newest first. */
  ghost predicate RowsWellFormed(stats: seq<EmployeeStats>)
  {
    forall i :: 0 <= i < |stats| ==>
      && stats[i].totalCount == |stats[i].transactions|
      && (forall t :: t in stats[i].transactions ==> t.employeeId == stats[i].profile.id)
      && Pairwise(stats[i].transactions, NewestFirst)
  }

  /** A caller who is not an admin holds no transaction of anyone else. */
  ghost predicate OnlyOwnRecords(caller: Option<Profile>, stats: seq<EmployeeStats>)
  {
    caller.Some? && caller.value.role != Admin ==>
      forall i, t :: 0 <= i < |stats| && t in stats[i].transactions ==> t.employeeId == caller.value.id
  }

  /** What a successful `loadTransactions` produces keeps both invariants. */
  lemma FreshStatsWellFormed(caller: Profile, employees: seq<Profile>, services: seq<ServiceType>, txs: seq<Transaction>)
    requires Pairwise(txs, NewestFirst)
    ensures RowsWellFormed(Aggregate(employees, services, Visible(caller, txs)))
    ensures OnlyOwnRecords(Some(caller), Aggregate(employees, services, Visible(caller, txs)))
  {
    var stats := Aggregate(employees, services, Visible(caller, txs));
    forall i | 0 <= i < |stats|
      ensures (forall t :: t in stats[i].transactions ==> t.employeeId == stats[i].profile.id)
      ensures Pairwise(stats[i].transactions, NewestFirst)
      ensures caller.role != Admin ==> forall t :: t in stats[i].transactions ==> t.employeeId == caller.id
    {
      AggregateTransactions(employees, services, Visible(caller, txs), i);
      if caller.role != Admin {
        OthersSeeNothing(caller, employees, services, txs, i);
      }
    }
  }

  /** After a successful deactivation and reload, the employee is off the
      roster (every other roster entry kept, in order) and has no row. */
  lemma DeactivatedHasNoRow(profiles: seq<Profile>, services: seq<ServiceType>, txs: seq<Transaction>, id: string)
    ensures ActiveEmployees(Deactivated(profiles, id)) == WithoutProfile(ActiveEmployees(profiles), id)
    ensures FindStats(Aggregate(ActiveEmployees(Deactivated(profiles, id)), services, txs), id).None?
  {
    RosterAfterDeactivate(profiles, id);
    var roster := ActiveEmployees(Deactivated(profiles, id));
    var stats := Aggregate(roster, services, txs);
    forall i | 0 <= i < |stats| ensures stats[i].profile.id != id {
      assert roster[i] in roster;
    }
  }

  /** On what the three loads return from a well-kept store, `totalTransactions`
      is at most the number of fetched transactions and every row's service
      cells add up to at most its total. */
  lemma LoadedTotalsBounded(caller: Profile, profiles: seq<Profile>, serviceTypes: seq<ServiceType>, txs: seq<Transaction>)
    requires StoreOrdered(profiles, serviceTypes, txs)
    ensures var stats := Aggregate(ActiveEmployees(profiles), ActiveServices(serviceTypes), Visible(caller, txs));
      && TotalTransactions(stats) <= |Visible(caller, txs)|
      && forall i :: 0 <= i < |stats| ==> RowSum(ActiveServices(serviceTypes), stats[i].serviceCounts) <= stats[i].totalCount
  {
    var roster, columns := ActiveEmployees(profiles), ActiveServices(serviceTypes);
    QueriesKeepOrder(profiles, serviceTypes, txs);
    assert Distinct(ProfileIds(roster)) by {
      forall i, j | 0 <= i < j < |roster| ensures ProfileIds(roster)[i] != ProfileIds(roster)[j] {
        assert DifferentProfiles(roster[i], roster[j]);
      }
    }
    assert Distinct(ServiceIds(columns)) by {
      forall i, j | 0 <= i < j < |columns| ensures ServiceIds(columns)[i] != ServiceIds(columns)[j] {
        assert DifferentServices(columns[i], columns[j]);
      }
    }
    TotalBound(roster, columns, Visible(caller, txs));
    forall i | 0 <= i < |roster|
      ensures RowSum(columns, Aggregate(roster, columns, Visible(caller, txs))[i].serviceCounts)
           <= Aggregate(roster, columns, Visible(caller, txs))[i].totalCount
    {
      RowSumBound(roster, columns, Visible(caller, txs), i);
    }
  }

  class Dashboard {
    /** The caller's profile from the authentication context, when it has been resolved. */
    const profile: Option<Profile>
    const store: RecordStore
    var employees: seq<Profile>
    var services: seq<ServiceType>
    var employeeStats: seq<EmployeeStats>
    /** At most one employee is selected: the id of the row whose history is open. */
    var selectedEmployee: Option<string>

    ghost predicate Valid()
      reads this, store
    {
      && store.Valid()
      && Pairwise(employees, NameOrder) && Pairwise(employees, DifferentProfiles)
      && (forall e :: e in employees ==> e.role == Employee)
      && Pairwise(services, DisplayOrder) && Pairwise(services, DifferentServices)
      && RowsWellFormed(employeeStats)
      && OnlyOwnRecords(profile, employeeStats)
    }

    constructor (caller: Option<Profile>, store: RecordStore)
      requires store.Valid()
      ensures Valid()
      ensures profile == caller && this.store == store
      ensures employees == [] && services == [] && employeeStats == [] && selectedEmployee == None
    {
      profile := caller;
      this.store := store;
      employees, services, employeeStats := [], [], [];
      selectedEmployee := None;
    }

    /** `loadData`: employees, then services, then transactions. */
    method LoadData(employeesFailure: bool, servicesFailure: bool, transactionsFailure: bool)
      requires Valid()
      modifies this`employees, this`services, this`employeeStats
      ensures Valid()
      ensures employees == if employeesFailure then old(employees) else ActiveEmployees(store.profiles)
      ensures services == if servicesFailure then old(services) else ActiveServices(store.serviceTypes)
      ensures employeeStats == if profile.None? || transactionsFailure then old(employeeStats)
                               else Aggregate(employees, services, Visible(profile.value, store.transactions))
    {
      LoadEmployees(employeesFailure);
      LoadServices(servicesFailure);
      LoadTransactions(transactionsFailure);
    }

    /** `loadEmployees`: the active employees by name; a failed query leaves the list as it was. */
    method LoadEmployees(failure: bool)
      requires Valid()
      modifies this`employees
      ensures Valid()
      ensures employees == if failure then old(employees) else ActiveEmployees(store.profiles)
    {
      var data: Option<seq<Profile>> := if failure then None else Some(ActiveEmployees(store.profiles));
      if data.Some? {
        QueriesKeepOrder(store.profiles, store.serviceTypes, store.transactions);
        employees := data.value;
      }
    }

    /** `loadServices`: the active services by display order; a failed query leaves the list as it was. */
    method LoadServices(failure: bool)
      requires Valid()
      modifies this`services
      ensures Valid()
      ensures services == if failure then old(services) else ActiveServices(store.serviceTypes)
    {
      var data: Option<seq<ServiceType>> := if failure then None else Some(ActiveServices(store.serviceTypes));
      if data.Some? {
        QueriesKeepOrder(store.profiles, store.serviceTypes, store.transactions);
        services := data.value;
      }
    }

    /** `loadTransactions`: nothing happens before the caller's profile is known;
        otherwise the caller's visible transactions, newest first, are aggregated
        over the current employees and services. A failed query changes nothing. */
    method LoadTransactions(failure: bool)
      requires Valid()
      modifies this`employeeStats
      ensures Valid()
      ensures employeeStats == if profile.None? || failure then old(employeeStats)
                               else Aggregate(employees, services, Visible(profile.value, store.transactions))
    {
      LoadTransactionsOver(employees, services, failure);
    }

    /** The body of `loadTransactions`, aggregating over the given employee and
        service lists: the current fields in the sequential model, or the lists
        of the render whose closure runs, in the component as written. */
    method LoadTransactionsOver(roster: seq<Profile>, columns: seq<ServiceType>, failure: bool)
      requires Valid()
      modifies this`employeeStats
      ensures Valid()
      ensures employeeStats == if profile.None? || failure then old(employeeStats)
                               else Aggregate(roster, columns, Visible(profile.value, store.transactions))
    {
      if profile.None? {
        return;
      }
      var data: Option<seq<Transaction>> := if failure then None else Some(Visible(profile.value, store.transactions));
      if data.Some? {
        var stats := BuildStats(roster, columns, data.value);
        FreshStatsWellFormed(profile.value, roster, columns, store.transactions);
        employeeStats := stats;
      }
    }

    /** `loadData` as the component runs it on mount: all three loads belong to
        the first render's closure, so `loadTransactions` aggregates over the
        employee and service lists of that render, not over the ones just loaded. */
    method LoadDataAsRendered(employeesFailure: bool, servicesFailure: bool, transactionsFailure: bool)
      requires Valid()
      modifies this`employees, this`services, this`employeeStats
      ensures Valid()
      ensures employees == if employeesFailure then old(employees) else ActiveEmployees(store.profiles)
      ensures services == if servicesFailure then old(services) else ActiveServices(store.serviceTypes)
      ensures employeeStats == if profile.None? || transactionsFailure then old(employeeStats)
                               else Aggregate(old(employees), old(services), Visible(profile.value, store.transactions))
    {
      var renderedEmployees, renderedServices := employees, services;
      LoadEmployees(employeesFailure);
      LoadServices(servicesFailure);
      LoadTransactionsOver(renderedEmployees, renderedServices, transactionsFailure);
    }

    /** `deleteTransaction`: after confirmation, delete every transaction with that
        id from the store and reload the statistics. If the store reports an error,
        the dashboard's state is left as it was. Profiles are never touched. */
    method DeleteTransaction(id: string, confirmed: bool, deleteFailure: bool, reloadFailure: bool)
      requires Valid()
      modifies this`employeeStats, store`transactions
      ensures Valid()
      ensures store.profiles == old(store.profiles)
      ensures store.transactions == if confirmed && !deleteFailure then WithoutTransaction(old(store.transactions), id)
                                    else old(store.transactions)
      ensures employeeStats == if confirmed && !deleteFailure && profile.Some? && !reloadFailure
                               then Aggregate(employees, services, Visible(profile.value, store.transactions))
                               else old(employeeStats)
    {
      if !confirmed {
        return;
      }
      var ok := store.DeleteTransaction(id, deleteFailure);
      if !ok {
        return;
      }
      LoadTransactions(reloadFailure);
    }

    /** `deactivateEmployee`: after confirmation, set `is_active` to false on that
        profile, then reload the employees and the statistics. Transactions are
        never touched; if the store reports an error, nothing of the dashboard changes. */
    method DeactivateEmployee(employeeId: string, confirmed: bool, updateFailure: bool,
                              employeesFailure: bool, transactionsFailure: bool)
      requires Valid()
      modifies this`employees, this`employeeStats, store`profiles
      ensures Valid()
      ensures store.transactions == old(store.transactions)
      ensures store.profiles == if confirmed && !updateFailure then Deactivated(old(store.profiles), employeeId)
                                else old(store.profiles)
      ensures employees == if confirmed && !updateFailure && !employeesFailure then ActiveEmployees(store.profiles)
                           else old(employees)
      ensures employeeStats == if confirmed && !updateFailure && profile.Some? && !transactionsFailure
                               then Aggregate(employees, services, Visible(profile.value, store.transactions))
                               else old(employeeStats)
    {
      if !confirmed {
        return;
      }
      var ok := store.DeactivateProfile(employeeId, updateFailure);
      if !ok {
        return;
      }
      LoadEmployees(employeesFailure);
      LoadTransactions(transactionsFailure);
    }

    /** `deactivateEmployee` as the component runs it: the reload of the
        statistics aggregates over the roster of the render the click came from,
        which still holds the deactivated employee. */
    method DeactivateEmployeeAsRendered(employeeId: string, confirmed: bool, updateFailure: bool,
                                        employeesFailure: bool, transactionsFailure: bool)
      requires Valid()
      modifies this`employees, this`employeeStats, store`profiles
      ensures Valid()
      ensures store.transactions == old(store.transactions)
      ensures store.profiles == if confirmed && !updateFailure then Deactivated(old(store.profiles), employeeId)
                                else old(store.profiles)
      ensures employees == if confirmed && !updateFailure && !employeesFailure then ActiveEmployees(store.profiles)
                           else old(employees)
      ensures employeeStats == if confirmed && !updateFailure && profile.Some? && !transactionsFailure
                               then Aggregate(old(employees), services, Visible(profile.value, store.transactions))
                               else old(employeeStats)
    {
      if !confirmed {
        return;
      }
      var ok := store.DeactivateProfile(employeeId, updateFailure);
      if !ok {
        return;
      }
      var renderedEmployees := employees;
      LoadEmployees(employeesFailure);
      LoadTransactionsOver(renderedEmployees, services, transactionsFailure);
    }

    /** The "Detay" button: selecting the open row again closes it, any other row opens instead. */
    method ToggleSelect(id: string)
      modifies this`selectedEmployee
      ensures selectedEmployee == if old(selectedEmployee) == Some(id) then None else Some(id)
    {
      selectedEmployee := if selectedEmployee == Some(id) then None else Some(id);
    }

    /** The "Kapat" button. */
    method CloseHistory()
      modifies this`selectedEmployee
      ensures selectedEmployee == None
    {
      selectedEmployee := None;
    }

    /** `selectedStats`: the first row of the selected employee, if one is
        selected and has a row. The empty id is falsy, so it selects nothing. */
    function SelectedStats(): (r: Option<EmployeeStats>)
      reads this
      ensures r.Some? ==> selectedEmployee == Some(r.value.profile.id) && r.value.profile.id != ""
      ensures r.Some? ==> exists i :: 0 <= i < |employeeStats| && employeeStats[i] == r.value &&
                                      forall j :: 0 <= j < i ==> employeeStats[j].profile.id != r.value.profile.id
      ensures r.None? <==> (selectedEmployee.None? || selectedEmployee.value == "" ||
                            forall i :: 0 <= i < |employeeStats| ==> employeeStats[i].profile.id != selectedEmployee.value)
    {
      if selectedEmployee.None? || selectedEmployee.value == "" then None
      else FindStats(employeeStats, selectedEmployee.value)
    }

    /** The history panel: the first min(30, n) transactions of the selected row. */
    function HistoryView(): (h: seq<Transaction>)
      reads this
      ensures |h| <= HistoryCap
      ensures SelectedStats().None? ==> h == []
      ensures SelectedStats().Some? ==>
        var t := SelectedStats().value.transactions;
        |h| == (if |t| < HistoryCap then |t| else HistoryCap) && h == t[..|h|] && IsSubsequence(h, t)
    {
      match SelectedStats()
      case None => []
      case Some(row) =>
        PrefixIsSubsequence(row.transactions, |History(row)|);
        History(row)
    }

    /** With the invariant, the panel shows the selected employee's most recent
        transactions, newest first, and nothing cut off is newer. */
    lemma HistoryIsMostRecent()
      requires Valid()
      requires SelectedStats().Some?
      ensures var row := SelectedStats().value;
        && Pairwise(HistoryView(), NewestFirst)
        && (|row.transactions| > HistoryCap ==> |HistoryView()| == HistoryCap)
        && (forall t :: t in HistoryView() ==> t.employeeId == selectedEmployee.value)
        && (forall i, j :: 0 <= i < |HistoryView()| <= j < |row.transactions| ==>
              NewestFirst(HistoryView()[i], row.transactions[j]))
    {
    }
  }

  // ---- The component as written: closures over the lists of their render ----

  /** A store holding an admin and one active employee: the roster is that
      employee, and empty once they are deactivated. */
  lemma RosterOfOne(admin: Profile, e: Profile)
    requires admin.role == Admin && e.role == Employee && e.isActive && admin.id != e.id
    ensures ActiveEmployees([admin, e]) == [e]
    ensures ActiveEmployees(Deactivated([admin, e], e.id)) == []
  {
    assert !IsActiveEmployee(admin) && IsActiveEmployee(e);
    assert [admin, e][1..] == [e] && [e][1..] == [];
    assert Filter([e], IsActiveEmployee) == [e] + Filter([], IsActiveEmployee);
    assert Filter([admin, e], IsActiveEmployee) == Filter([e], IsActiveEmployee);
    var off := e.(isActive := false);
    assert Deactivated([admin, e], e.id) == [admin, off];
    assert !IsActiveEmployee(off);
    assert [admin, off][1..] == [off] && [off][1..] == [];
    assert Filter([off], IsActiveEmployee) == Filter([], IsActiveEmployee);
    assert Filter([admin, off], IsActiveEmployee) == Filter([off], IsActiveEmployee);
  }

  /** Mounting over a store with one active employee. As written, the table
      stays empty although the roster was loaded. */
  method MountScenario() returns (roster: seq<Profile>, stats: seq<EmployeeStats>)
    ensures roster == [Profile("e1", "Ali", Employee, true)]
    ensures stats == []
  {
    var admin := Profile("a1", "Admin", Admin, true);
    var e := Profile("e1", "Ali", Employee, true);
    RosterOfOne(admin, e);
    var store := new RecordStore([admin, e], [], []);
    var d := new Dashboard(Some(admin), store);
    d.LoadDataAsRendered(false, false, false);
    roster, stats := d.employees, d.employeeStats;
  }

  /** The same mount with sequential updates: the table has the employee's row. */
  method MountSequentialScenario() returns (roster: seq<Profile>, stats: seq<EmployeeStats>)
    ensures roster == [Profile("e1", "Ali", Employee, true)]
    ensures |stats| == 1 && stats[0].profile == roster[0]
  {
    var admin := Profile("a1", "Admin", Admin, true);
    var e := Profile("e1", "Ali", Employee, true);
    RosterOfOne(admin, e);
    var store := new RecordStore([admin, e], [], []);
    var d := new Dashboard(Some(admin), store);
    d.LoadData(false, false, false);
    roster, stats := d.employees, d.employeeStats;
  }

  /** Deactivating the only employee, from a render whose table lists them.
      As written, no such render exists (see `MountScenario`), so the table
      is first filled as a corrected mount would. The deactivation handler as
      written then empties the roster but keeps the employee's row. */
  method DeactivateScenario() returns (roster: seq<Profile>, stats: seq<EmployeeStats>)
    ensures roster == []
    ensures FindStats(stats, "e1").Some?
  {
    var admin := Profile("a1", "Admin", Admin, true);
    var e := Profile("e1", "Ali", Employee, true);
    RosterOfOne(admin, e);
    var store := new RecordStore([admin, e], [], []);
    var d := new Dashboard(Some(admin), store);
    d.LoadData(false, false, false);
    assert d.employees == [e];
    assert FindStats(d.employeeStats, "e1").Some?;
    d.DeactivateEmployeeAsRendered("e1", true, false, false, false);
    roster, stats := d.employees, d.employeeStats;
    assert |stats| == 1 && stats[0].profile.id == "e1";
  }

  /** The same deactivation with sequential updates: the table is empty too. */
  method DeactivateSequentialScenario() returns (roster: seq<Profile>, stats: seq<EmployeeStats>)
    ensures roster == []
    ensures stats == []
  {
    var admin := Profile("a1", "Admin", Admin, true);
    var e := Profile("e1", "Ali", Employee, true);
    RosterOfOne(admin, e);
    var store := new RecordStore([admin, e], [], []);
    var d := new Dashboard(Some(admin), store);
    d.LoadData(false, false, false);
    d.DeactivateEmployee("e1", true, false, false, false);
    roster, stats := d.employees, d.employeeStats;
  }
}

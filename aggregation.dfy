/** The per-employee statistics of the admin dashboard: the `employees.map`
    pipeline of `loadTransactions`, the `serviceCounts` dictionary it fills,
    the `totalTransactions` reduction, the `selectedStats` lookup and the
    30-item history cap. */
module Aggregation {
  import opened Records
  import opened Sequences
  import opened Counting
  import opened Store

  /** How many transactions the history panel shows (`slice(0, 30)`). */
  const HistoryCap: nat := 30

  /** One row of the performance table. */
  datatype EmployeeStats = EmployeeStats(
    profile: Profile,
    transactions: seq<Transaction>,
    totalCount: nat,
    serviceCounts: map<string, nat>)

  /** The dictionary the `services.forEach` loop leaves behind: one key per
      service, holding the number of transactions of that service. A later
      service with the same id overwrites an earlier one, as in the loop. */
  function ServiceCounts(services: seq<ServiceType>, txs: seq<Transaction>): (m: map<string, nat>)
    ensures forall k :: k in m <==> k in ServiceIds(services)
    ensures forall k :: k in m ==> m[k] == |OfService(txs, k)|
    decreases |services|
  {
    if services == [] then map[]
    else
      var n := |services| - 1;
      assert ServiceIds(services) == ServiceIds(services[..n]) + [services[n].id];
      ServiceCounts(services[..n], txs)[services[n].id := |OfService(txs, services[n].id)|]
  }

  /** The row the map callback builds for one employee. */
  function StatsFor(employee: Profile, services: seq<ServiceType>, txs: seq<Transaction>): (row: EmployeeStats)
    ensures row.profile == employee
    ensures forall t :: t in row.transactions <==> t in txs && t.employeeId == employee.id
    ensures IsSubsequence(row.transactions, txs)
    ensures row.totalCount == |row.transactions|
    ensures forall k :: k in row.serviceCounts <==> k in ServiceIds(services)
    ensures forall k :: k in row.serviceCounts ==> row.serviceCounts[k] == |OfService(row.transactions, k)|
  {
    var own := OfEmployee(txs, employee.id);
    FilterIsSubsequence(txs, (t: Transaction) => t.employeeId == employee.id);
    EmployeeStats(employee, own, |own|, ServiceCounts(services, own))
  }

  /** `employees.map(...)`: one row per employee, in roster order. */
  function Aggregate(employees: seq<Profile>, services: seq<ServiceType>, txs: seq<Transaction>): (stats: seq<EmployeeStats>)
    ensures |stats| == |employees|
    ensures forall i :: 0 <= i < |stats| ==> stats[i].profile == employees[i]
    ensures forall i :: 0 <= i < |stats| ==> stats[i].totalCount == |stats[i].transactions|
  {
    seq(|employees|, i requires 0 <= i < |employees| => StatsFor(employees[i], services, txs))
  }

  /** `employeeStats.reduce((sum, emp) => sum + emp.totalCount, 0)`. */
  function TotalTransactions(stats: seq<EmployeeStats>): (n: nat)
    ensures forall i :: 0 <= i < |stats| ==> stats[i].totalCount <= n
    ensures n == 0 <==> forall i :: 0 <= i < |stats| ==> stats[i].totalCount == 0
  {
    if stats == [] then 0
    else
      assert forall i :: 0 < i < |stats| ==> stats[i] == stats[1..][i - 1];
      stats[0].totalCount + TotalTransactions(stats[1..])
  }

  /** The sum of one table row's service cells, `serviceCounts[service.id] || 0`,
      over the service columns. */
  function RowSum(services: seq<ServiceType>, counts: map<string, nat>): (n: nat)
    ensures forall i :: 0 <= i < |services| && services[i].id in counts ==> counts[services[i].id] <= n
    ensures n == 0 <==> forall i :: 0 <= i < |services| && services[i].id in counts ==> counts[services[i].id] == 0
  {
    if services == [] then 0
    else
      assert forall i :: 0 < i < |services| ==> services[i] == services[1..][i - 1];
      (if services[0].id in counts then counts[services[0].id] else 0) + RowSum(services[1..], counts)
  }

  /** `employeeStats.find(s => s.profile.id === id)`: the first row with that id. */
  function FindStats(stats: seq<EmployeeStats>, id: string): (r: Option<EmployeeStats>)
    ensures r.None? <==> forall i :: 0 <= i < |stats| ==> stats[i].profile.id != id
    ensures r.Some? ==> exists i :: 0 <= i < |stats| && stats[i] == r.value && stats[i].profile.id == id &&
                                    (forall j :: 0 <= j < i ==> stats[j].profile.id != id)
  {
    if stats == [] then None
    else if stats[0].profile.id == id then Some(stats[0])
    else
      var r := FindStats(stats[1..], id);
      assert forall i :: 0 < i < |stats| ==> stats[i] == stats[1..][i - 1];
      r
  }

  /** `selectedStats.transactions.slice(0, 30)`: the first min(30, n) transactions. */
  function History(row: EmployeeStats): (h: seq<Transaction>)
    ensures |h| == if |row.transactions| < HistoryCap then |row.transactions| else HistoryCap
    ensures h == row.transactions[..|h|]
  {
    if |row.transactions| <= HistoryCap then row.transactions else row.transactions[..HistoryCap]
  }

  // ---- The `forEach` loop and the `map` pipeline, as the code runs them ----

  /** Fills `serviceCounts` one service at a time, as the `services.forEach` loop does. */
  method FillServiceCounts(services: seq<ServiceType>, empTransactions: seq<Transaction>) returns (serviceCounts: map<string, nat>)
    ensures serviceCounts == ServiceCounts(services, empTransactions)
  {
    serviceCounts := map[];
    for i := 0 to |services|
      invariant serviceCounts == ServiceCounts(services[..i], empTransactions)
    {
      assert services[..i + 1][..i] == services[..i];
      serviceCounts := serviceCounts[services[i].id := |OfService(empTransactions, services[i].id)|];
    }
    assert services[..|services|] == services;
  }

  /** Builds the rows one employee at a time, as `employees.map` does. */
  method BuildStats(employees: seq<Profile>, services: seq<ServiceType>, data: seq<Transaction>) returns (stats: seq<EmployeeStats>)
    ensures stats == Aggregate(employees, services, data)
  {
    stats := [];
    for i := 0 to |employees|
      invariant stats == Aggregate(employees[..i], services, data)
    {
      var empTransactions := OfEmployee(data, employees[i].id);
      var serviceCounts := FillServiceCounts(services, empTransactions);
      AggregateSnoc(employees, services, data, i);
      stats := stats + [EmployeeStats(employees[i], empTransactions, |empTransactions|, serviceCounts)];
    }
    assert employees[..|employees|] == employees;
  }

  lemma AggregateSnoc(employees: seq<Profile>, services: seq<ServiceType>, txs: seq<Transaction>, i: nat)
    requires i < |employees|
    ensures Aggregate(employees[..i + 1], services, txs)
         == Aggregate(employees[..i], services, txs) + [StatsFor(employees[i], services, txs)]
  {
  }

  // ---- Properties of the statistics ----

  lemma {:induction false} OfEmployeeCount(txs: seq<Transaction>, id: string)
    ensures |OfEmployee(txs, id)| == Occurrences(EmployeeColumn(txs), id)
  {
    if txs != [] {
      assert EmployeeColumn(txs)[1..] == EmployeeColumn(txs[1..]);
      OfEmployeeCount(txs[1..], id);
    }
  }

  lemma {:induction false} OfServiceCount(txs: seq<Transaction>, id: string)
    ensures |OfService(txs, id)| == Occurrences(ServiceColumn(txs), id)
  {
    if txs != [] {
      assert ServiceColumn(txs)[1..] == ServiceColumn(txs[1..]);
      OfServiceCount(txs[1..], id);
    }
  }

  /** Row i holds exactly employee i's transactions: all of them, only them,
      in the order they were fetched, so newest first if the fetch was. */
  lemma AggregateTransactions(employees: seq<Profile>, services: seq<ServiceType>, txs: seq<Transaction>, i: nat)
    requires i < |employees|
    ensures var row := Aggregate(employees, services, txs)[i];
      && (forall t :: t in row.transactions <==> t in txs && t.employeeId == employees[i].id)
      && IsSubsequence(row.transactions, txs)
      && row.totalCount == Occurrences(EmployeeColumn(txs), employees[i].id)
      && (Pairwise(txs, NewestFirst) ==> Pairwise(row.transactions, NewestFirst))
  {
    var p := (t: Transaction) => t.employeeId == employees[i].id;
    FilterIsSubsequence(txs, p);
    OfEmployeeCount(txs, employees[i].id);
    if Pairwise(txs, NewestFirst) {
      FilterPairwise(txs, p, NewestFirst);
    }
  }

  /** Every service of the list is a key of each row's counts, and nothing else
      is; the value is the number of that employee's transactions of that service. */
  lemma AggregateServiceCounts(employees: seq<Profile>, services: seq<ServiceType>, txs: seq<Transaction>, i: nat)
    requires i < |employees|
    ensures var row := Aggregate(employees, services, txs)[i];
      && (forall k :: k in row.serviceCounts <==> k in ServiceIds(services))
      && (forall k :: k in row.serviceCounts ==> row.serviceCounts[k] == Occurrences(ServiceColumn(row.transactions), k))
  {
    var row := Aggregate(employees, services, txs)[i];
    forall k | k in row.serviceCounts
      ensures row.serviceCounts[k] == Occurrences(ServiceColumn(row.transactions), k)
    {
      OfServiceCount(row.transactions, k);
    }
  }

  lemma {:induction false} ColumnMembers(txs: seq<Transaction>, id: string)
    ensures id in EmployeeColumn(txs) <==> exists t :: t in txs && t.employeeId == id
  {
    if id in EmployeeColumn(txs) {
      var j :| 0 <= j < |txs| && EmployeeColumn(txs)[j] == id;
      assert txs[j] in txs;
    } else {
      forall t | t in txs ensures t.employeeId != id {
        var j :| 0 <= j < |txs| && txs[j] == t;
        assert EmployeeColumn(txs)[j] == t.employeeId;
      }
    }
  }

  /** An employee without transactions still gets a row: total 0, every service key present with 0. */
  lemma EmployeeWithoutTransactions(employees: seq<Profile>, services: seq<ServiceType>, txs: seq<Transaction>, i: nat)
    requires i < |employees|
    requires forall t :: t in txs ==> t.employeeId != employees[i].id
    ensures var row := Aggregate(employees, services, txs)[i];
      && row.profile == employees[i] && row.transactions == [] && row.totalCount == 0
      && (forall k :: k in row.serviceCounts <==> k in ServiceIds(services))
      && (forall k :: k in row.serviceCounts ==> row.serviceCounts[k] == 0)
  {
  }

  /** The row sum written out over the services: each service's count. */
  lemma {:induction false} RowSumOfCounts(ss: seq<ServiceType>, counts: map<string, nat>, column: seq<string>)
    requires forall k :: k in ServiceIds(ss) ==> k in counts && counts[k] == Occurrences(column, k)
    ensures RowSum(ss, counts) == SumOver(ServiceIds(ss), column)
  {
    if ss != [] {
      assert ServiceIds(ss)[0] == ss[0].id;
      assert ServiceIds(ss)[1..] == ServiceIds(ss[1..]);
      RowSumOfCounts(ss[1..], counts, column);
    }
  }

  /** With distinct service ids, a row's service cells add up to at most its total, and
      to exactly its total iff every one of its transactions is of a listed service:
      transactions of a deactivated service count in the total but in no column. */
  lemma RowSumBound(employees: seq<Profile>, services: seq<ServiceType>, txs: seq<Transaction>, i: nat)
    requires i < |employees|
    requires Distinct(ServiceIds(services))
    ensures var row := Aggregate(employees, services, txs)[i];
      && RowSum(services, row.serviceCounts) <= row.totalCount
      && (RowSum(services, row.serviceCounts) == row.totalCount
          <==> forall t :: t in row.transactions ==> t.serviceTypeId in ServiceIds(services))
  {
    var row := Aggregate(employees, services, txs)[i];
    var column := ServiceColumn(row.transactions);
    AggregateServiceCounts(employees, services, txs, i);
    RowSumOfCounts(services, row.serviceCounts, column);
    SumOverDistinct(ServiceIds(services), column);
    CountInBound(column, ServiceIds(services));
    assert (forall x :: x in column ==> x in ServiceIds(services))
       <==> (forall t :: t in row.transactions ==> t.serviceTypeId in ServiceIds(services)) by {
      forall t | t in row.transactions ensures t.serviceTypeId in column {
        var j :| 0 <= j < |row.transactions| && row.transactions[j] == t;
        assert column[j] == t.serviceTypeId;
      }
      forall x | x in column ensures exists t :: t in row.transactions && t.serviceTypeId == x {
        var j :| 0 <= j < |column| && column[j] == x;
        assert row.transactions[j] in row.transactions;
      }
    }
  }

  /** The total over the rows, written out per employee. */
  lemma {:induction false} TotalIsSumOver(employees: seq<Profile>, services: seq<ServiceType>, txs: seq<Transaction>)
    ensures TotalTransactions(Aggregate(employees, services, txs)) == SumOver(ProfileIds(employees), EmployeeColumn(txs))
  {
    if employees != [] {
      var stats := Aggregate(employees, services, txs);
      assert stats[1..] == Aggregate(employees[1..], services, txs);
      assert ProfileIds(employees)[1..] == ProfileIds(employees[1..]);
      OfEmployeeCount(txs, employees[0].id);
      TotalIsSumOver(employees[1..], services, txs);
    }
  }

  /** `totalTransactions`: with distinct employee ids it counts each fetched
      transaction of a listed employee once, so it is at most the number fetched,
      and equal to it iff every fetched transaction belongs to a listed employee. */
  lemma TotalBound(employees: seq<Profile>, services: seq<ServiceType>, txs: seq<Transaction>)
    requires Distinct(ProfileIds(employees))
    ensures TotalTransactions(Aggregate(employees, services, txs)) == CountIn(EmployeeColumn(txs), ProfileIds(employees))
    ensures TotalTransactions(Aggregate(employees, services, txs)) <= |txs|
    ensures TotalTransactions(Aggregate(employees, services, txs)) == |txs|
      <==> forall t :: t in txs ==> t.employeeId in ProfileIds(employees)
  {
    var column := EmployeeColumn(txs);
    TotalIsSumOver(employees, services, txs);
    SumOverDistinct(ProfileIds(employees), column);
    CountInBound(column, ProfileIds(employees));
    assert (forall x :: x in column ==> x in ProfileIds(employees))
       <==> (forall t :: t in txs ==> t.employeeId in ProfileIds(employees)) by {
      forall t | t in txs ensures t.employeeId in column {
        var j :| 0 <= j < |txs| && txs[j] == t;
        assert column[j] == t.employeeId;
      }
      forall x | x in column ensures exists t :: t in txs && t.employeeId == x {
        ColumnMembers(txs, x);
      }
    }
  }

  /** The history shows the most recent transactions: when the row is newest
      first, so is the history, and everything cut off is no newer than what is shown. */
  lemma HistoryMostRecent(row: EmployeeStats)
    requires Pairwise(row.transactions, NewestFirst)
    ensures Pairwise(History(row), NewestFirst)
    ensures |row.transactions| > HistoryCap ==> |History(row)| == HistoryCap
    ensures forall i, j :: 0 <= i < |History(row)| <= j < |row.transactions| ==>
      NewestFirst(History(row)[i], row.transactions[j])
  {
  }
}

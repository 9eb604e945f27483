/** The visibility rule of `loadTransactions`: a caller who is not an admin
    only ever fetches their own transactions; an admin fetches all of them. */
module AccessPolicy {
  import opened Records
  import opened Sequences
  import opened Store
  import opened Aggregation

  /** The transactions the caller's query returns: the whole table, newest
      first, narrowed by `.eq('employee_id', profile.id)` unless the caller's
      role is admin. */
  function Visible(caller: Profile, txs: seq<Transaction>): (r: seq<Transaction>)
    ensures caller.role == Admin ==> r == txs
    ensures caller.role != Admin ==> forall t :: t in r <==> t in txs && t.employeeId == caller.id
    ensures IsSubsequence(r, txs)
    ensures Pairwise(txs, NewestFirst) ==> Pairwise(r, NewestFirst)
    ensures Pairwise(txs, DifferentTransactions) ==> Pairwise(r, DifferentTransactions)
  {
    if caller.role != Admin then
      var p := (t: Transaction) => t.employeeId == caller.id;
      FilterIsSubsequence(txs, p);
      SubsequencePairwisePreserved(Filter(txs, p), txs);
      Filter(txs, p)
    else
      SubsequenceOfItself(txs);
      txs
  }

  /** A subsequence of the table keeps its order and its keys. */
  lemma SubsequencePairwisePreserved(r: seq<Transaction>, txs: seq<Transaction>)
    requires IsSubsequence(r, txs)
    ensures Pairwise(txs, NewestFirst) ==> Pairwise(r, NewestFirst)
    ensures Pairwise(txs, DifferentTransactions) ==> Pairwise(r, DifferentTransactions)
  {
    if Pairwise(txs, NewestFirst) {
      SubsequencePairwise(r, txs, NewestFirst);
    }
    if Pairwise(txs, DifferentTransactions) {
      SubsequencePairwise(r, txs, DifferentTransactions);
    }
  }

  /** For a caller who is not an admin, every row of the table holds only the
      caller's transactions: every other employee's row is empty, with total 0
      and every service count 0. */
  lemma OthersSeeNothing(caller: Profile, employees: seq<Profile>, services: seq<ServiceType>, txs: seq<Transaction>, i: nat)
    requires caller.role != Admin
    requires i < |employees|
    ensures forall t :: t in Aggregate(employees, services, Visible(caller, txs))[i].transactions ==> t.employeeId == caller.id
    ensures employees[i].id != caller.id ==>
      var row := Aggregate(employees, services, Visible(caller, txs))[i];
      row.transactions == [] && row.totalCount == 0 && forall k :: k in row.serviceCounts ==> row.serviceCounts[k] == 0
  {
  }
}

/** The record store behind the dashboard (the Supabase tables `profiles`,
    `service_types` and `transactions`), as in-memory sequences. Every
    `.order(...)` the dashboard asks for is modelled by keeping the tables in
    that order (see `StoreOrdered`), so an `.eq(...)` filter, which keeps the
    rows in their original order, returns them already sorted. */
module Store {
  import opened Records
  import opened Sequences

  /** The row filter of `loadEmployees`: `.eq('role', 'employee').eq('is_active', true)`. */
  predicate IsActiveEmployee(p: Profile)
  {
    p.role == Employee && p.isActive
  }

  /** The roster query of `loadEmployees`. */
  function ActiveEmployees(profiles: seq<Profile>): (r: seq<Profile>)
    ensures forall p :: p in r <==> p in profiles && IsActiveEmployee(p)
  {
    Filter(profiles, IsActiveEmployee)
  }

  /** The row filter of `loadServices`: `.eq('is_active', true)`. */
  predicate IsActiveService(s: ServiceType)
  {
    s.isActive
  }

  /** The service query of `loadServices`. */
  function ActiveServices(serviceTypes: seq<ServiceType>): (r: seq<ServiceType>)
    ensures forall s :: s in r <==> s in serviceTypes && IsActiveService(s)
  {
    Filter(serviceTypes, IsActiveService)
  }

  /** `.eq('employee_id', id)` on transactions; also the per-employee `filter` of the aggregator. */
  function OfEmployee(txs: seq<Transaction>, id: string): (r: seq<Transaction>)
    ensures forall t :: t in r <==> t in txs && t.employeeId == id
  {
    Filter(txs, (t: Transaction) => t.employeeId == id)
  }

  /** The per-service `filter` of the aggregator: `t.service_type_id === service.id`. */
  function OfService(txs: seq<Transaction>, serviceId: string): (r: seq<Transaction>)
    ensures forall t :: t in r <==> t in txs && t.serviceTypeId == serviceId
  {
    Filter(txs, (t: Transaction) => t.serviceTypeId == serviceId)
  }

  /** The table after `.delete().eq('id', id)`. */
  function WithoutTransaction(txs: seq<Transaction>, id: string): (r: seq<Transaction>)
    ensures forall t :: t in r <==> t in txs && t.id != id
  {
    Filter(txs, (t: Transaction) => t.id != id)
  }

  /** The profiles other than the one with the given id, in order. */
  function WithoutProfile(ps: seq<Profile>, id: string): (r: seq<Profile>)
    ensures forall p :: p in r <==> p in ps && p.id != id
  {
    Filter(ps, (p: Profile) => p.id != id)
  }

  /** The table after `.update({ is_active: false }).eq('id', id)`. */
  function Deactivated(ps: seq<Profile>, id: string): (r: seq<Profile>)
    ensures |r| == |ps|
    ensures forall i :: 0 <= i < |r| ==>
      r[i].id == ps[i].id && r[i].fullName == ps[i].fullName && r[i].role == ps[i].role
    ensures forall i :: 0 <= i < |r| ==> r[i].isActive == (ps[i].isActive && ps[i].id != id)
    ensures forall i :: 0 <= i < |r| && ps[i].id != id ==> r[i] == ps[i]
  {
    seq(|ps|, i requires 0 <= i < |ps| => if ps[i].id == id then ps[i].(isActive := false) else ps[i])
  }

  /** The orders the dashboard's queries ask for, and the primary keys. */
  ghost predicate StoreOrdered(profiles: seq<Profile>, serviceTypes: seq<ServiceType>, transactions: seq<Transaction>)
  {
    && Pairwise(profiles, NameOrder) && Pairwise(profiles, DifferentProfiles)
    && Pairwise(serviceTypes, DisplayOrder) && Pairwise(serviceTypes, DifferentServices)
    && Pairwise(transactions, NewestFirst) && Pairwise(transactions, DifferentTransactions)
  }

  /** Deleting rows keeps the transactions newest first and keyed. */
  lemma DeleteKeepsOrder(txs: seq<Transaction>, id: string)
    requires Pairwise(txs, NewestFirst) && Pairwise(txs, DifferentTransactions)
    ensures IsSubsequence(WithoutTransaction(txs, id), txs)
    ensures Pairwise(WithoutTransaction(txs, id), NewestFirst)
    ensures Pairwise(WithoutTransaction(txs, id), DifferentTransactions)
  {
    FilterIsSubsequence(txs, (t: Transaction) => t.id != id);
    FilterPairwise(txs, (t: Transaction) => t.id != id, NewestFirst);
    FilterPairwise(txs, (t: Transaction) => t.id != id, DifferentTransactions);
  }

  /** Deactivating changes no name and no id, so the profiles stay sorted and keyed. */
  lemma DeactivateKeepsOrder(ps: seq<Profile>, id: string)
    requires Pairwise(ps, NameOrder) && Pairwise(ps, DifferentProfiles)
    ensures Pairwise(Deactivated(ps, id), NameOrder) && Pairwise(Deactivated(ps, id), DifferentProfiles)
  {
  }

  /** The roster reloaded after deactivating `id` is the old roster without that
      profile, every other active employee kept in the same order. */
  lemma {:induction false} RosterAfterDeactivate(ps: seq<Profile>, id: string)
    ensures ActiveEmployees(Deactivated(ps, id)) == WithoutProfile(ActiveEmployees(ps), id)
  {
    if ps != [] {
      assert Deactivated(ps, id)[1..] == Deactivated(ps[1..], id);
      RosterAfterDeactivate(ps[1..], id);
    }
  }

  /** The roster and the service list come back in the order the queries ask for. */
  lemma QueriesKeepOrder(profiles: seq<Profile>, serviceTypes: seq<ServiceType>, transactions: seq<Transaction>)
    requires StoreOrdered(profiles, serviceTypes, transactions)
    ensures Pairwise(ActiveEmployees(profiles), NameOrder)
    ensures Pairwise(ActiveEmployees(profiles), DifferentProfiles)
    ensures Pairwise(ActiveServices(serviceTypes), DisplayOrder)
    ensures Pairwise(ActiveServices(serviceTypes), DifferentServices)
  {
    FilterPairwise(profiles, IsActiveEmployee, NameOrder);
    FilterPairwise(profiles, IsActiveEmployee, DifferentProfiles);
    FilterPairwise(serviceTypes, IsActiveService, DisplayOrder);
    FilterPairwise(serviceTypes, IsActiveService, DifferentServices);
  }

  /** The three tables. Only the two mutations the dashboard issues are modelled;
      `failure` stands for the error the store may report instead of applying one. */
  class RecordStore {
    var profiles: seq<Profile>
    var serviceTypes: seq<ServiceType>
    var transactions: seq<Transaction>

    ghost predicate Valid()
      reads this
    {
      StoreOrdered(profiles, serviceTypes, transactions)
    }

    constructor (profiles: seq<Profile>, serviceTypes: seq<ServiceType>, transactions: seq<Transaction>)
      requires StoreOrdered(profiles, serviceTypes, transactions)
      ensures Valid()
      ensures this.profiles == profiles && this.serviceTypes == serviceTypes && this.transactions == transactions
    {
      this.profiles := profiles;
      this.serviceTypes := serviceTypes;
      this.transactions := transactions;
    }

    /** `supabase.from('transactions').delete().eq('id', id)`. */
    method DeleteTransaction(id: string, failure: bool) returns (ok: bool)
      requires Valid()
      modifies this`transactions
      ensures Valid()
      ensures ok == !failure
      ensures transactions == if ok then WithoutTransaction(old(transactions), id) else old(transactions)
    {
      if failure {
        return false;
      }
      DeleteKeepsOrder(transactions, id);
      transactions := WithoutTransaction(transactions, id);
      ok := true;
    }

    /** `supabase.from('profiles').update({ is_active: false }).eq('id', id)`. */
    method DeactivateProfile(id: string, failure: bool) returns (ok: bool)
      requires Valid()
      modifies this`profiles
      ensures Valid()
      ensures ok == !failure
      ensures profiles == if ok then Deactivated(old(profiles), id) else old(profiles)
    {
      if failure {
        return false;
      }
      DeactivateKeepsOrder(profiles, id);
      profiles := Deactivated(profiles, id);
      ok := true;
    }
  }
}

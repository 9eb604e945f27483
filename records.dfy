/** The record types of the Supabase schema, reduced to the fields the
    dashboard reads: identities, role, active flags, the sort keys
    (full name, display order, performed-at timestamp) and foreign keys. */
module Records {

  datatype Option<T> = None | Some(value: T)

  datatype Role = Admin | Employee

  /** A row of `profiles`. Email, shop name and audit timestamps are not needed. */
  datatype Profile = Profile(id: string, fullName: string, role: Role, isActive: bool)

  /** A row of `service_types`. */
  datatype ServiceType = ServiceType(id: string, displayOrder: int, isActive: bool)

  /** A row of `transactions`; notes and audit timestamps are not needed. */
  datatype Transaction = Transaction(id: string, employeeId: string, serviceTypeId: string, performedAt: string)

  /** Lexicographic order on code points: a stand-in for the store's collation
      of names and its timestamp order. No property of the model depends on
      what this order is. */
  predicate StrLe(a: string, b: string)
  {
    |a| == 0 || (|b| > 0 && (a[0] < b[0] || (a[0] == b[0] && StrLe(a[1..], b[1..]))))
  }

  /** `.order('full_name')`: p may come before q. */
  predicate NameOrder(p: Profile, q: Profile)
  {
    StrLe(p.fullName, q.fullName)
  }

  /** `.order('display_order')`: s may come before u. */
  predicate DisplayOrder(s: ServiceType, u: ServiceType)
  {
    s.displayOrder <= u.displayOrder
  }

  /** `.order('performed_at', { ascending: false })`: t may come before u. */
  predicate NewestFirst(t: Transaction, u: Transaction)
  {
    StrLe(u.performedAt, t.performedAt)
  }

  /** Primary keys: two different rows never share an id. */
  predicate DifferentProfiles(p: Profile, q: Profile)
  {
    p.id != q.id
  }

  predicate DifferentServices(s: ServiceType, u: ServiceType)
  {
    s.id != u.id
  }

  predicate DifferentTransactions(t: Transaction, u: Transaction)
  {
    t.id != u.id
  }

  function ProfileIds(ps: seq<Profile>): seq<string>
  {
    seq(|ps|, i requires 0 <= i < |ps| => ps[i].id)
  }

  function ServiceIds(ss: seq<ServiceType>): seq<string>
  {
    seq(|ss|, i requires 0 <= i < |ss| => ss[i].id)
  }

  /** The `employee_id` column of a list of transactions. */
  function EmployeeColumn(txs: seq<Transaction>): seq<string>
  {
    seq(|txs|, i requires 0 <= i < |txs| => txs[i].employeeId)
  }

  /** The `service_type_id` column of a list of transactions. */
  function ServiceColumn(txs: seq<Transaction>): seq<string>
  {
    seq(|txs|, i requires 0 <= i < |txs| => txs[i].serviceTypeId)
  }
}

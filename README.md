# BarberTrack admin dashboard — a Dafny model

BarberTrack is a small service-tracking dashboard for barber shops: employees
log the services they perform, and an administrator reviews a per-employee
performance table. This project models the core of its `AdminDashboard`
component:

- the three loads (active employees by name, active services by display
  order, and the caller's visible transactions, newest first);
- the visibility rule: an admin fetches every transaction, anyone else only
  their own, and nothing is fetched before the caller's profile is known;
- the aggregator, which turns the flat transaction list into one
  `EmployeeStats` row per employee, with a `serviceCounts` dictionary holding
  one key per active service;
- `totalTransactions`, `selectedStats`, the one-row selection toggle and the
  30-item history cap;
- the two mutations, delete a transaction and deactivate an employee. Each
  mutation asks for confirmation, changes the record store, then reloads.

Modules, leaf first:

| file | module | contents |
|---|---|---|
| records.dfy | `Records` | `Profile`, `ServiceType`, `Transaction` (the fields the dashboard reads), the sort orders, id columns |
| sequences.dfy | `Sequences` | order-preserving `Filter`, `IsSubsequence`, `Pairwise`, and the lemmas that filters keep order and keys |
| counting.dfy | `Counting` | occurrence counts; summing per-key counts over distinct keys |
| store.dfy | `Store` | the table queries and mutations as functions; the `RecordStore` class |
| access.dfy | `AccessPolicy` | `Visible`, the caller-dependent transaction query |
| aggregation.dfy | `Aggregation` | `EmployeeStats`, `Aggregate`, `ServiceCounts`, `FindStats`, `History`; the loop versions `FillServiceCounts` and `BuildStats` |
| dashboard.dfy | `AdminDashboard` | the `Dashboard` class (state fields, loads, mutations, selection) and the invariants it keeps |

Modelling choices:

- The record store is an object holding three sequences, `RecordStore`.
  Each `.order(...)` the dashboard requests is modelled by keeping the tables
  in that order: the invariant `StoreOrdered` sorts profiles by full name,
  services by display order, and transactions newest first, and requires
  distinct profile, service and transaction ids (primary keys). An `.eq(...)` filter keeps
  rows in order, so each query result comes back sorted.
- Timestamps and names are strings, compared lexicographically by code point
  (`StrLe`). This is a stand-in for the store's collation and timestamp
  order; no property depends on which order it is.
- A store error is a boolean argument (`failure`, `deleteFailure`, …). The
  browser's `confirm()` dialog is the boolean `confirmed`. A failed read
  (`data` is null) leaves the field it would have set unchanged. A failed
  mutation (`error` is set) returns before the reload.
- React state updates are modelled as sequential field updates. So
  `LoadTransactions` run right after `LoadEmployees` sees the new employee
  list. The component as written does not behave that way: each handler is a
  closure over the `employees` and `services` of the render that created it.
  `LoadTransactionsOver` takes those lists as arguments, and
  `LoadDataAsRendered` and `DeactivateEmployeeAsRendered` model the two
  handlers as written. Two consequences follow, recorded under "## Findings".
  First, after mount `employeeStats` is `[]`, and nothing else fills it: the
  only other callers of `loadTransactions` are the two mutation handlers, whose
  buttons sit in the table rows (line 206) and in the history panel of a
  selected row. So, as written, the table never has a row, and selection, the
  history panel and both mutations cannot be reached from the page. Second,
  once the mount is fixed, a deactivation reloads the statistics over the
  roster from before it (line 122), so the deactivated employee keeps a table
  row; this defect stays hidden until the first one is fixed. `LoadData`,
  `DeactivateEmployee` and `DeactivatedHasNoRow` describe the
  sequential-update model.
  `deleteTransaction` changes neither list, so both readings agree on it.
- The caller's profile from the authentication context is the constant field
  `Dashboard.profile` of type `Option<Profile>`.
- The sum of a row's service counts is taken over the service columns, as
  the table displays them (`serviceCounts[service.id] || 0`, line 216), not
  over the dictionary's values. With distinct service ids the two are the
  same.

## Model

| member | source | states |
|---|---|---|
| `Store.ActiveEmployees` | src/pages/AdminDashboard.tsx:32-38 | the roster holds exactly the profiles with role employee that are active |
| `Store.ActiveServices` | src/pages/AdminDashboard.tsx:43-48 | the service list holds exactly the active service types |
| `Store.OfEmployee` | src/pages/AdminDashboard.tsx:74 | holds exactly the transactions whose employee id matches |
| `Store.OfService` | src/pages/AdminDashboard.tsx:78 | holds exactly the transactions whose service type id matches |
| `Store.WithoutTransaction` | src/pages/AdminDashboard.tsx:98-101 | after the delete, exactly the transactions with a different id remain |
| `Store.Deactivated` | src/pages/AdminDashboard.tsx:115-118 | the update keeps every profile's id, name and role; it clears `isActive` on the profiles with that id and leaves all others equal |
| `Store.DeleteKeepsOrder` | src/pages/AdminDashboard.tsx:98-101 | the remaining transactions are a subsequence of the old table, stay newest first and keep distinct ids |
| `Store.DeactivateKeepsOrder` | src/pages/AdminDashboard.tsx:115-118 | the profiles stay sorted by name and keep distinct ids after a deactivation |
| `Store.RosterAfterDeactivate` | src/pages/AdminDashboard.tsx:115-121 | the reloaded roster is the old roster minus the deactivated profile, every other entry kept in order |
| `Store.QueriesKeepOrder` | src/pages/AdminDashboard.tsx:32-48 | the roster comes back sorted by name with distinct ids; the services come back by display order with distinct ids |
| `Store.RecordStore.DeleteTransaction` | src/pages/AdminDashboard.tsx:98-103 | on success the table loses exactly the rows with that id; on an error it is unchanged; the store invariant is kept |
| `Store.RecordStore.DeactivateProfile` | src/pages/AdminDashboard.tsx:115-120 | on success only that profile's active flag changes; on an error nothing changes; the store invariant is kept |
| `AccessPolicy.Visible` | src/pages/AdminDashboard.tsx:56-70 | for an admin, the fetched set is the whole table; otherwise it is exactly the caller's own transactions; either way it is a subsequence, stays newest first and keeps distinct ids |
| `AccessPolicy.OthersSeeNothing` | src/pages/AdminDashboard.tsx:66-87 | for a non-admin caller, every row holds only the caller's transactions; every other employee's row is empty, with total 0 and all counts 0 |
| `Aggregation.ServiceCounts` | src/pages/AdminDashboard.tsx:75-79 | one key per service in the list and nothing else; each value is the number of transactions of that service |
| `Aggregation.StatsFor` | src/pages/AdminDashboard.tsx:73-86 | the row for one employee: that profile, exactly its fetched transactions in fetched order, a total equal to their number, one count per listed service and no other key |
| `Aggregation.Aggregate` | src/pages/AdminDashboard.tsx:73-87 | one row per employee in roster order; row i's profile is employee i; its total is the number of its transactions |
| `Aggregation.FillServiceCounts` | src/pages/AdminDashboard.tsx:75-79 | the `forEach` loop leaves exactly the dictionary `ServiceCounts` describes |
| `Aggregation.BuildStats` | src/pages/AdminDashboard.tsx:73-87 | the `map` over employees, with the loop inside, produces exactly `Aggregate` |
| `Aggregation.OfEmployeeCount` | src/pages/AdminDashboard.tsx:74 | an employee's transaction count is the number of occurrences of its id in the employee-id column |
| `Aggregation.OfServiceCount` | src/pages/AdminDashboard.tsx:78 | a service's count is the number of occurrences of its id in the service-id column |
| `Aggregation.AggregateTransactions` | src/pages/AdminDashboard.tsx:73-74 | row i holds all and only employee i's fetched transactions, as a subsequence in fetched order; it stays newest first if the fetch was |
| `Aggregation.AggregateServiceCounts` | src/pages/AdminDashboard.tsx:75-84 | every service is a key of every row's counts and nothing else is; the value is that service's number of occurrences among the row's transactions |
| `Aggregation.EmployeeWithoutTransactions` | src/pages/AdminDashboard.tsx:73-86 | an employee with no transactions still has a row: no transactions, total 0, every service key present with 0 |
| `Aggregation.RowSumBound` | src/pages/AdminDashboard.tsx:214-221 | with distinct service ids, a row's service cells add up to at most its total; they equal it iff every one of its transactions is of a listed service |
| `Aggregation.TotalTransactions` | src/pages/AdminDashboard.tsx:129 | the total is at least every row's count, and it is 0 iff every row's count is 0 |
| `Aggregation.RowSum` | src/pages/AdminDashboard.tsx:214-221 | the sum of a row's displayed cells is at least every listed service's count, and it is 0 iff all those counts are 0 (a missing key shows as 0) |
| `Aggregation.TotalIsSumOver` | src/pages/AdminDashboard.tsx:129 | `totalTransactions` is the sum, over the roster, of each employee's occurrences in the employee-id column |
| `Aggregation.TotalBound` | src/pages/AdminDashboard.tsx:129 | with distinct employee ids, `totalTransactions` counts the fetched transactions of listed employees, so it is at most the number fetched; it equals that number iff every fetched transaction belongs to a listed employee |
| `Aggregation.FindStats` | src/pages/AdminDashboard.tsx:130-132 | returns nothing iff no row has the id; otherwise it returns the first row with that id |
| `Aggregation.History` | src/pages/AdminDashboard.tsx:267 | the first min(30, n) transactions of the row |
| `Aggregation.HistoryMostRecent` | src/pages/AdminDashboard.tsx:267 | for a newest-first row, the history is newest first, has exactly 30 entries when the row has more, and nothing cut off is newer than anything shown |
| `AdminDashboard.FreshStatsWellFormed` | src/pages/AdminDashboard.tsx:72-89 | freshly aggregated rows are well formed (total = size, own transactions only, newest first); for a non-admin, no row holds another employee's records |
| `AdminDashboard.DeactivatedHasNoRow` | src/pages/AdminDashboard.tsx:115-122 | with sequential updates, after deactivation and reload the employee is off the roster, every other entry is kept in order, and the table has no row for them |
| `AdminDashboard.LoadedTotalsBounded` | src/pages/AdminDashboard.tsx:25-29 | on what the three loads return from a well-kept store, `totalTransactions` is at most the number of visible transactions, and every row's service cells add up to at most its total |
| `AdminDashboard.Dashboard.constructor` | src/pages/AdminDashboard.tsx:14-18 | the component starts with empty lists, no stats and nothing selected |
| `AdminDashboard.Dashboard.LoadData` | src/pages/AdminDashboard.tsx:25-29 | with sequential updates: employees, then services, then transactions are loaded, the last over the lists just loaded; each failed read keeps its old field |
| `AdminDashboard.Dashboard.LoadDataAsRendered` | src/pages/AdminDashboard.tsx:15-29 | as written: employees and services are loaded, but the statistics are aggregated over the lists the component held before the loads |
| `AdminDashboard.Dashboard.LoadEmployees` | src/pages/AdminDashboard.tsx:32-41 | `employees` becomes the active roster, or is unchanged if the query fails; nothing else changes |
| `AdminDashboard.Dashboard.LoadServices` | src/pages/AdminDashboard.tsx:43-51 | `services` becomes the active services, or is unchanged if the query fails; nothing else changes |
| `AdminDashboard.Dashboard.LoadTransactions` | src/pages/AdminDashboard.tsx:53-91 | with no caller profile, or if the query fails, `employeeStats` is unchanged; otherwise it is the aggregate of the caller's visible transactions; the invariants, including "non-admins hold only their own records", are kept |
| `AdminDashboard.Dashboard.LoadTransactionsOver` | src/pages/AdminDashboard.tsx:53-91 | the `loadTransactions` body over given employee and service lists: unchanged with no profile or a failed query, otherwise the aggregate over those lists; the invariants are kept |
| `AdminDashboard.Dashboard.DeleteTransaction` | src/pages/AdminDashboard.tsx:94-109 | if not confirmed or the delete fails, nothing changes; otherwise the store loses exactly the transactions with that id, profiles are untouched, and the stats are reloaded |
| `AdminDashboard.Dashboard.DeactivateEmployee` | src/pages/AdminDashboard.tsx:111-127 | if not confirmed or the update fails, nothing changes; otherwise only that profile's active flag changes, transactions are untouched, and employees and stats are reloaded |
| `AdminDashboard.Dashboard.DeactivateEmployeeAsRendered` | src/pages/AdminDashboard.tsx:111-127 | as written: the store and the roster change as in `DeactivateEmployee`, but the statistics are aggregated over the roster from before the deactivation |
| `AdminDashboard.Dashboard.ToggleSelect` | src/pages/AdminDashboard.tsx:227-229 | selecting the open row closes it; selecting any other row opens that row instead |
| `AdminDashboard.Dashboard.CloseHistory` | src/pages/AdminDashboard.tsx:256 | nothing is selected afterwards |
| `AdminDashboard.Dashboard.SelectedStats` | src/pages/AdminDashboard.tsx:130-132 | the first table row with the selected id; nothing iff nothing is selected, the selected id is empty (falsy), or no row has that id |
| `AdminDashboard.Dashboard.HistoryView` | src/pages/AdminDashboard.tsx:263-267 | empty when no row is selected; otherwise exactly the first min(30, n) transactions of the selected row |
| `AdminDashboard.Dashboard.HistoryIsMostRecent` | src/pages/AdminDashboard.tsx:267 | the panel shows the selected employee's own transactions, newest first, exactly 30 of them when the row has more, and nothing cut off is newer |
| `AdminDashboard.MountScenario` | src/pages/AdminDashboard.tsx:15-29 | over a store with one active employee, the mount as written loads the roster but leaves the table empty |
| `AdminDashboard.MountSequentialScenario` | src/pages/AdminDashboard.tsx:15-29 | the same mount with sequential updates gives the table that employee's row |
| `AdminDashboard.DeactivateScenario` | src/pages/AdminDashboard.tsx:111-127 | starting from a table that lists the only employee (a fixed mount), the deactivation handler as written empties the roster but keeps their row in the table |
| `AdminDashboard.DeactivateSequentialScenario` | src/pages/AdminDashboard.tsx:111-127 | the same deactivation with sequential updates empties both the roster and the table |

## Left out

- All rendering, styling and the `confirm`/`alert` dialogs. Confirmation is the boolean `confirmed`; the alert after a failed mutation is not modelled.
- `src/pages/Login.tsx`: a form around external sign-in and sign-up calls.
- Building the Supabase client from environment variables, and the query builder and network calls. The store is an in-memory object whose filters behave as written. Failures are boolean inputs.
- `.order(...)` as a sort: the store is instead kept in the requested orders by the `StoreOrdered` invariant. No operation in the model inserts rows, so nothing re-sorts.
- The embedded `service_types(*)` and `profiles(*)` records of `TransactionWithDetails`. The model keeps plain transactions. Profiles' email, shop name and audit timestamps, and transactions' notes, are dropped too.
- React's re-rendering. The stale-closure reading is modelled only for the two handlers listed under "## Findings"; the rest of the model uses sequential field updates. Asynchronous interleaving of loads, and a handler started while another is still awaiting, are not modelled.
- The mount effect runs once (lines 21-23) with the first render's `profile`. If the authentication context had not resolved the profile by then, the statistics are never loaded. The model's `profile` is a constant, so it covers exactly that: with `None`, `LoadTransactions` does nothing.
- `display_order` is a JavaScript `number`; the model takes it as an `int`.
- Server-side authorization (row-level security) for the admin-only mutations. It is not in any of the shown files. The component itself does not check the caller's role before deleting or deactivating, and neither does the model.
- `showAddEmployee`: it only toggles a hint text.

## Findings

| source | as written | input that shows it | evidently intended | confidence | as-written member | corrected member |
|---|---|---|---|---|---|---|
| src/pages/AdminDashboard.tsx:21-29, 73 | the mount effect's `loadData` closure runs `loadTransactions` over the first render's `employees` and `services`, both `[]` | a store with one active employee, mounted by an admin | the table shows one row per loaded employee | not executed | `AdminDashboard.Dashboard.LoadDataAsRendered`, `AdminDashboard.MountScenario` | `AdminDashboard.Dashboard.LoadData`, `AdminDashboard.MountSequentialScenario` |
| src/pages/AdminDashboard.tsx:115-122 | `deactivateEmployee` reloads the statistics over the roster of the render the click came from | once the mount is fixed so that the table lists the only active employee, deactivating them; as written the table never has a row, so this shows only once the mount defect of the row above is fixed | the deactivated employee's row disappears with them | not executed | `AdminDashboard.Dashboard.DeactivateEmployeeAsRendered`, `AdminDashboard.DeactivateScenario` | `AdminDashboard.Dashboard.DeactivateEmployee`, `AdminDashboard.DeactivatedHasNoRow`, `AdminDashboard.DeactivateSequentialScenario` |

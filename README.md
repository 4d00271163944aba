# em-plor authorization and employee lifecycle, in Dafny

This project models the core of em-plor, an employee directory with a NestJS GraphQL API and a Next.js client:

- **Authorization.**
  - The ability the API derives for a caller from the caller's role (ADMIN, MANAGER, EMPLOYEE), the caller's linked employee and the position catalog (`CaslAbilityFactory.create`).
  - The CASL rule matching that `ability.can` performs, written out as explicit rules.
  - The `updateEmployee` policy handler.
  - The guard that requires every policy handler to pass.
- **Employee lifecycle.** The `createEmployee` and `updateEmployee` mutations over the `employees`, `accounts` and `employee_histories` tables:
  - the admin gate;
  - change detection;
  - closing the latest history row and opening a new one;
  - TypeORM `merge`;
  - the account email update and the final save.
- **Employee list.** The `employees` query: paging defaults, the sort choice, role scoping, the name-or-email filter, `findAndCount` and the `totalPage` ceiling.
- **Authentication.** The bearer-token extraction and decision of `AuthGuard`, and the header the web client builds.
- **Client state.** The web client's authentication store (`useAuthStore`) and its persisted slice.
- **Pagination.** The page-number list of the `Pagination` component (`getPageNumbers`) and its Prev/Next/page-click handlers.
- **History timeline.** The ordering and row captions of the employee history timeline (`EmployeeHistoryGraph`).

Dates are integer timestamps, and "now" is a parameter. Identifiers are strings. Optional GraphQL arguments and nullable columns are `Option`s. JavaScript truthiness of an optional string is `Domain.Truthy`: the value is present and not empty.

## Layout

| file | models |
|---|---|
| `wrappers.dfy` | `Option`, `Result` |
| `domain.dfy` | the entities: account, employee row, history row, position, principal |
| `text.dfy` | `split` on one character and its inverse `join`, substring search, lexicographic order |
| `sorting.dfy` | a generic insertion sort, standing for `ORDER BY` and `Array.prototype.sort` |
| `ability.dfy` | `casl-ability.factory.ts` and the CASL matcher |
| `policy_node.dfy` | `policy.handler.ts` |
| `employee_policy.dfy` | `employee.policy-handler.ts` |
| `policies_guard.dfy` | `policies.guard.ts` |
| `history_table.dfy` | the `employee_histories` table: the latest row of an employee, closing it, the open-row invariant |
| `employee_lifecycle.dfy` | `employee.mutation.ts`, with the three tables as fields of the class `EmployeeMutation` |
| `employee_list.dfy` | `EmployeeResolver.getEmployees` |
| `auth_guard.dfy` | `auth.guard.ts`, with the class `Request` whose `user` the guard sets, and the client header of `apollo.ts` |
| `auth_store.dfy` | `auth.store.ts`, as the class `Store` whose actions overwrite its fields |
| `pagination.dfy` | `Pagination.tsx`; `getPageNumbers` is a method with its loops |
| `history_graph.dfy` | `EmployeeHistoryGraph.tsx` |

### Decisions

- **The history invariant.** An employee is *tracked* by the history table (`HistoryTable.Tracked`) when two things hold:
  - every open row of the employee (a row without `endDate`) is the employee's latest row;
  - every such open row records the employee's current department and position.

  The latest row is the one with the greatest `startDate`; among rows with equal start dates it is the first in table order. A tracked employee has at most one open row.

  The store invariant `EmployeeLifecycle.Consistent` has three parts:
  - every employee is tracked;
  - every history row belongs to a stored employee;
  - employees are keyed by their id.

  The invariant is proved for every update under two assumptions:
  - the clock has passed every recorded start date (`StartedBefore`);
  - the input names no empty department or position id (`IdsNonEmpty`).

  An empty id is the one value that `merge` writes but change detection ignores. The foreign keys rule it out in the database.
- **How errors are modelled.** A thrown error is a `LifecycleError` value:
  - the role gate gives `Unauthorized`;
  - `findOneOrFail` gives `NotFound`;
  - a unique or not-null column gives `ConstraintViolation`;
  - dereferencing a missing account relation gives `AccountNotLoaded`.
- **The employee list.** `take` of 0 is falsy, so TypeORM applies no limit. `Math.ceil(total / 0)` is then `Infinity`, or `NaN` when the total is also 0; both are values of `TotalPages`.

  A non-admin caller whose account carries no employee makes the resolver throw at `user.employee!`. The model gives `None` for that case. As written this is every manager and every employee: the authentication guard loads the account without its `employee` relation (a finding below).
- **Where the design documentation and the code disagree, the model follows the code:**
  - The documentation says a MANAGER or EMPLOYEE without a linked employee fails closed. The ability factory dereferences the employee with `!`. `LinkedAsRoleRequires` is therefore a precondition of `AbilityFor`.
  - The documentation says creation opens a history row. `createEmployee` writes none (`CreateKeepsConsistent` states this).
  - The documentation says an operation with no registered handler is denied. `PoliciesGuard.canActivate` admits any known caller when no handler is registered (`NoHandlersAdmits`). No resolver registers a handler at all.
  - The documentation says the history close/open pair and the save are one transaction. The code writes the history first and saves afterwards, with no transaction. This is a finding below.

## Model

| member | source | states |
|---|---|---|
| Ability.AllowedPositionIds | apps/api/src/graphql/auth/casl-ability.factory.ts:37-39 | an id is allowed iff some catalog position with that id ranks strictly below the given rank |
| Ability.AbilityFor | apps/api/src/graphql/auth/casl-ability.factory.ts:21-63 | every account receives at least the universal read rule; the lemmas below state what the rules grant |
| Ability.AllowedPositionsStrictlyBelow | apps/api/src/graphql/auth/casl-ability.factory.ts:36-39 | with unique catalog ids, a catalog position is allowed iff its rank is strictly below the manager's; the manager's own position never is |
| Ability.EveryoneReadsEmployeeRecords | apps/api/src/graphql/auth/casl-ability.factory.ts:27 | every caller may read employee records, both as a type and as any instance |
| Ability.AdminCanEverything | apps/api/src/graphql/auth/casl-ability.factory.ts:29-32 | an admin may perform every action on every subject |
| Ability.ManagerUpdatesInputIff | apps/api/src/graphql/auth/casl-ability.factory.ts:34-45 | a manager may update an input iff it keeps the manager's department and names a catalog position ranked strictly below the manager's |
| Ability.ManagerCannotUpdateRecords | apps/api/src/graphql/auth/casl-ability.factory.ts:34-46 | a manager may not update any employee record |
| Ability.EmployeeUpdatesRecordIff | apps/api/src/graphql/auth/casl-ability.factory.ts:50 | an employee may update a record iff its id is the employee's own |
| Ability.EmployeeUpdatesInputIff | apps/api/src/graphql/auth/casl-ability.factory.ts:52-55 | an employee may update an input iff it keeps the employee's position and department |
| Ability.NonAdminLimits | apps/api/src/graphql/auth/casl-ability.factory.ts:27-56 | a non-admin may never create, delete or manage anything, may take no action but update on an input, and may take no action on a repository row |
| PolicyNode.GetNode | apps/api/src/graphql/auth/policy.handler.ts:20-35 | variables and key are copied; isMutation iff the typename is "Mutation", isQuery iff it is "Query"; never both |
| EmployeePolicy.RowFields | apps/api/src/graphql/employee/employee.policy-handler.ts:45-48 | the loaded row as a subject has exactly its id, department and position |
| EmployeePolicy.InputFields | apps/api/src/graphql/employee/employee.policy-handler.ts:49-52 | only the variables that were sent become fields of the input subject, with their values |
| EmployeePolicy.Handle | apps/api/src/graphql/employee/employee.policy-handler.ts:23-54 | the handler fails only for a truthy id naming no employee, and passes only for the `updateEmployee` mutation |
| EmployeePolicy.OtherOperationsRefused | apps/api/src/graphql/employee/employee.policy-handler.ts:28-35 | anything but the `updateEmployee` mutation yields false |
| EmployeePolicy.MissingIdRefusedWithoutLookup | apps/api/src/graphql/employee/employee.policy-handler.ts:42-43 | a missing or empty id yields false whatever the repository holds |
| EmployeePolicy.UnknownIdFails | apps/api/src/graphql/employee/employee.policy-handler.ts:45 | an id that names no employee makes the handler fail |
| EmployeePolicy.AdminPasses | apps/api/src/graphql/employee/employee.policy-handler.ts:47-53 | an admin passes for every existing target |
| EmployeePolicy.EmployeePassesIff | apps/api/src/graphql/employee/employee.policy-handler.ts:47-53 | an employee passes iff the target is their own record and the input keeps their position and department |
| EmployeePolicy.ManagerNeverPasses | apps/api/src/graphql/employee/employee.policy-handler.ts:47-53 | a manager never passes |
| EmployeePolicy.AsWrittenRefusesAllButAdmins | apps/api/src/graphql/employee/employee.policy-handler.ts:45-53 | as written, with the repository row as the subject, no non-admin ever passes |
| EmployeePolicy.AsWrittenRefusesOwnRecord | apps/api/src/graphql/employee/employee.policy-handler.ts:45-53 | an employee editing their own record within their rights passes the corrected handler and is refused by the handler as written |
| PoliciesGuard.Results | apps/api/src/graphql/auth/policies.guard.ts:53-62 | one result per handler, in order, each the handler's own result |
| PoliciesGuard.Every | apps/api/src/graphql/auth/policies.guard.ts:64 | true iff every result is exactly true |
| PoliciesGuard.NoCallerRefused | apps/api/src/graphql/auth/policies.guard.ts:38-49 | no user, or a user without an account, is denied whatever handlers are registered |
| PoliciesGuard.AllowIffEveryHandlerPasses | apps/api/src/graphql/auth/policies.guard.ts:53-64 | for a known caller: allowed iff every handler returns true; rejected iff some handler fails |
| PoliciesGuard.NoHandlersAdmits | apps/api/src/graphql/auth/policies.guard.ts:32-36 | with no registered handler a known caller is admitted |
| PoliciesGuard.SettleIgnoresOrder | apps/api/src/graphql/auth/policies.guard.ts:53-64 | the verdict depends only on which results occur |
| PoliciesGuard.ResultsCovered | apps/api/src/graphql/auth/policies.guard.ts:53-62 | every result of a covered handler list occurs among the results of the covering list |
| PoliciesGuard.HandlerOrderIrrelevant | apps/api/src/graphql/auth/policies.guard.ts:53-64 | listing the same handlers in another order, or repeating one, gives the same verdict |
| PoliciesGuard.CallbackIgnoresContext | apps/api/src/graphql/auth/policies.guard.ts:72-78 | a callback handler's result does not depend on the context |
| HistoryTable.Latest | apps/api/src/graphql/employee/employee.mutation.ts:99-102 | none iff the employee has no row; otherwise a row of the employee with the greatest start date, later than every earlier row of the employee |
| HistoryTable.LatestIsUnique | apps/api/src/graphql/employee/employee.mutation.ts:99-102 | a row of the employee whose start date is at least every other's and strictly above every earlier one's is the latest |
| HistoryTable.LatestDependsOnlyOnOwnRows | apps/api/src/graphql/employee/employee.mutation.ts:99-102 | tables that agree on an employee's rows agree on its latest row |
| HistoryTable.CloseLatest | apps/api/src/graphql/employee/employee.mutation.ts:103-106 | only the latest row is touched, and only when open: it gets end date now; afterwards the latest row is closed |
| HistoryTable.TrackedHasAtMostOneOpenRow | apps/api/src/graphql/employee/employee.mutation.ts:92-117 | a tracked employee has at most one open row |
| HistoryTable.OthersStayTracked | apps/api/src/graphql/employee/employee.mutation.ts:97-115 | closing and opening rows for one employee keeps every other employee tracked |
| HistoryTable.AppendedRowIsTheOpenOne | apps/api/src/graphql/employee/employee.mutation.ts:99-114 | after closing the latest row and appending a later open row, that row is the latest and the only open row |
| EmployeeLifecycle.Merge | apps/api/src/graphql/employee/employee.mutation.ts:117 | fields the input carries overwrite the row's; absent ones, the id, the manager and the creation time are kept |
| EmployeeLifecycle.OpenedRow | apps/api/src/graphql/employee/employee.mutation.ts:109-114 | the new row is open, starts now, and records the department and position the merged employee will have |
| EmployeeLifecycle.RecordChange | apps/api/src/graphql/employee/employee.mutation.ts:97-115 | exactly one row is appended, the opened row; rows of other employees are unchanged |
| EmployeeLifecycle.SaveUpdate | apps/api/src/graphql/employee/employee.mutation.ts:117-122 | the save fails iff a truthy email meets a missing account or another account's email, and then changes nothing; on success the employee is the merged row, the own account takes the new email, and other accounts are unchanged |
| EmployeeLifecycle.UpdateAsWritten | apps/api/src/graphql/employee/employee.mutation.ts:74-123 | a non-admin is refused and an unknown id fails, both writing nothing; success returns the merged row; a failing save after a change leaves the new history rows behind |
| EmployeeLifecycle.UpdateInTransaction | apps/api/src/graphql/employee/employee.mutation.ts:74-123 | a failure leaves every table as it was; a success is the update as written |
| EmployeeLifecycle.Create | apps/api/src/graphql/employee/employee.mutation.ts:50-72 | succeeds iff the caller is admin, department and position are given, the keys are fresh and the email is free; then exactly one employee and one EMPLOYEE account are added, and no history row |
| EmployeeLifecycle.UnchangedStaysTracked | apps/api/src/graphql/employee/employee.mutation.ts:92-97 | an update that changes no assignment keeps the employee tracked without new rows |
| EmployeeLifecycle.ChangeStaysTracked | apps/api/src/graphql/employee/employee.mutation.ts:97-117 | after a change the merged employee is tracked and its only open row is the new one |
| EmployeeLifecycle.UpdateKeepsConsistent | apps/api/src/graphql/employee/employee.mutation.ts:74-123 | every update in one transaction keeps the store consistent |
| EmployeeLifecycle.CreateKeepsConsistent | apps/api/src/graphql/employee/employee.mutation.ts:61-71 | creation keeps the store consistent, and a created employee has no history row |
| EmployeeLifecycle.NonAdminChangesNothing | apps/api/src/graphql/employee/employee.mutation.ts:57-84 | a non-admin caller is refused by both mutations and nothing changes |
| EmployeeLifecycle.HistoryWrittenIffChanged | apps/api/src/graphql/employee/employee.mutation.ts:92-115 | a successful update writes history iff the assignment changes, and then exactly one row, which is the latest and the only open one |
| EmployeeLifecycle.RepeatedUpdateRecordsNothing | apps/api/src/graphql/employee/employee.mutation.ts:92-117 | after an update the same input detects no change, and merging it again changes nothing |
| EmployeeLifecycle.UpdateTouchesOnlyItsEmployee | apps/api/src/graphql/employee/employee.mutation.ts:97-122 | a successful update leaves other employees, other accounts and other employees' history rows unchanged |
| EmployeeLifecycle.PartialWriteStore | apps/api/src/graphql/employee/employee.mutation.ts:97-122 | the counterexample store is consistent |
| EmployeeLifecycle.PartialWriteOnDuplicateEmail | apps/api/src/graphql/employee/employee.mutation.ts:97-122 | as written, a department change with a taken email fails yet leaves changed history and an inconsistent store |
| EmployeeLifecycle.TransactionWritesNothingOnDuplicateEmail | apps/api/src/graphql/employee/employee.mutation.ts:97-122 | the same update in one transaction fails and writes nothing |
| EmployeeLifecycle.EmployeeMutation.constructor | apps/api/src/graphql/employee/employee.mutation.ts:39-48 | the mutation object sees the given tables |
| EmployeeLifecycle.EmployeeMutation.CreateEmployee | apps/api/src/graphql/employee/employee.mutation.ts:50-72 | the new tables and the result are those of `Create`; consistency is kept |
| EmployeeLifecycle.EmployeeMutation.UpdateEmployee | apps/api/src/graphql/employee/employee.mutation.ts:74-123 | closes the latest row and appends the new one in place, then saves; a failing save leaves the history rows written; the new tables and the result are `UpdateAsWritten`'s, and a successful update keeps consistency |
| EmployeeLifecycle.EmployeeMutation.UpdateEmployeeInTransaction | apps/api/src/graphql/employee/employee.mutation.ts:74-123 | the same update with every table put back when it fails; the new tables and the result are `UpdateInTransaction`'s, and consistency is kept whatever the outcome |
| EmployeeLifecycle.EmployeeMutation.RecordHistory | apps/api/src/graphql/employee/employee.mutation.ts:97-115 | the history field becomes `RecordChange` of the old one; nothing else changes |
| EmployeeList.ScopeOf | apps/api/src/graphql/employee/employee.resolver.ts:100-112 | admin: everyone; employee: own id; manager: reports of own id; none iff a non-admin has no employee |
| EmployeeList.OrderFor | apps/api/src/graphql/employee/employee.resolver.ts:89-95 | an order is chosen iff a sort field is given |
| EmployeeList.FindOptionsFor | apps/api/src/graphql/employee/employee.resolver.ts:85-115 | skip defaults to 0 and take to 10; the `where` array selects exactly the in-scope rows that pass the filter |
| EmployeeList.BuildFindOptions | apps/api/src/graphql/employee/employee.resolver.ts:85-115 | the assignments and pushes build exactly `FindOptionsFor` |
| EmployeeList.Matching | apps/api/src/graphql/employee/employee.resolver.ts:117-118 | each row that satisfies some condition object occurs as often as in the table, and no other row occurs; so the count is that of all matching rows |
| EmployeeList.BeforeIsTotal | apps/api/src/graphql/employee/employee.resolver.ts:89-95 | each of the three orders is total |
| EmployeeList.Ordered | apps/api/src/graphql/employee/employee.resolver.ts:88-95 | a permutation of the rows, sorted when an order is chosen |
| EmployeeList.Window | apps/api/src/graphql/employee/employee.resolver.ts:117-118 | at most `take` rows (when take is positive) starting at `skip`; empty past the end |
| EmployeeList.FindAndCount | apps/api/src/graphql/employee/employee.resolver.ts:117-118 | the count is of all matching rows; the items are the window of the ordered matching rows |
| EmployeeList.TotalPage | apps/api/src/graphql/employee/employee.resolver.ts:123 | for positive take, the least n with total <= n * take; for zero take, NaN or Infinity |
| EmployeeList.GetEmployees | apps/api/src/graphql/employee/employee.resolver.ts:79-125 | a page exists iff the caller's scope can be derived |
| EmployeeList.ListedRowsQualify | apps/api/src/graphql/employee/employee.resolver.ts:97-122 | the total counts exactly the in-scope rows passing the filter, and every listed row is one of them |
| EmployeeList.EmployeeSeesOnlyThemself | apps/api/src/graphql/employee/employee.resolver.ts:100-111 | an employee lists only their own record |
| EmployeeList.ManagerSeesOnlyReports | apps/api/src/graphql/employee/employee.resolver.ts:101-112 | a manager lists only direct reports |
| EmployeeList.AsWrittenOnlyAdminsList | apps/api/src/graphql/employee/employee.resolver.ts:79-112 | for a caller admitted by the authentication guard, whose account comes without its employee, a page exists iff the caller is an admin |
| EmployeeList.LinkedEmployee | apps/api/src/db/entities/employee.entity.ts:57-61 | the account's employee, read as the inverse of `employee.account` (the `employees.accountId` column), exists iff some row names the account, and is such a row |
| EmployeeList.LoadedCallerListsOwnScope | apps/api/src/graphql/employee/employee.resolver.ts:100-112 | with the caller's employee found through `employees.accountId`, a page exists iff the caller is an admin or has an employee row; an employee then lists only their own record and a manager only their direct reports |
| EmployeeList.AdminCountsEveryRow | apps/api/src/graphql/employee/employee.resolver.ts:97-122 | without a filter an admin's total is the number of rows |
| EmployeeList.FilterMatchesNameOrEmail | apps/api/src/graphql/employee/employee.resolver.ts:98-108 | with a filter, an in-scope row matches iff its name or its account email contains the filter |
| EmployeeList.PageIsOrderedWindow | apps/api/src/graphql/employee/employee.resolver.ts:85-124 | the page is in the requested order, holds at most take rows, and is empty when skip reaches the total |
| AuthGuard.ExtractToken | apps/api/src/graphql/auth/auth.guard.ts:42-46 | a token exists iff there is a header whose first space-separated part is exactly "Bearer" and which has a second part; the token is that second part |
| AuthGuard.HeaderRoundTrip | apps/app/lib/apollo.ts:18 | the header the client builds from a truthy token without spaces yields that token; without a token none is found |
| AuthGuard.Authenticate | apps/api/src/graphql/auth/auth.guard.ts:20-40 | admitted iff the token is truthy, verifies, and its id names an account; the account is that one |
| AuthGuard.EmptyTokenRefused | apps/api/src/graphql/auth/auth.guard.ts:23-24 | "Bearer ", "Bearer" and a missing header are refused |
| AuthGuard.Request.constructor | apps/api/src/graphql/auth/auth.guard.ts:22 | a request carries its header and no user |
| AuthGuard.CanActivate | apps/api/src/graphql/auth/auth.guard.ts:20-40 | returns true iff the request authenticates; only then is the user set, to that account |
| AuthStore.Initial | apps/app/lib/stores/auth.store.ts:22-25 | no token, no account, not authenticated, not initialised |
| AuthStore.Apply | apps/app/lib/stores/auth.store.ts:26-30 | each action overwrites only the fields it names; setAccount and login authenticate, logout does not |
| AuthStore.Partialize | apps/app/lib/stores/auth.store.ts:35-39 | the persisted slice keeps token and account, is never authenticated and has no initialisation flag |
| AuthStore.Rehydrate | apps/app/lib/stores/auth.store.ts:32-40 | the persisted fields replace the current ones; the initialisation flag is kept |
| AuthStore.InitializeIsIdempotent | apps/app/lib/stores/auth.store.ts:30 | initialising twice is initialising once |
| AuthStore.LoginThenLogout | apps/app/lib/stores/auth.store.ts:28-29 | login then logout gives the initial state with the initialisation flag kept, and persists nothing of the session |
| AuthStore.ReloadIsUnauthenticated | apps/app/lib/stores/auth.store.ts:35-39 | after a reload the token and account are back but the client is not authenticated |
| AuthStore.SetAccountNullAuthenticates | apps/app/lib/stores/auth.store.ts:26 | setAccount(null) marks the client authenticated with no account |
| AuthStore.Store.constructor | apps/app/lib/stores/auth.store.ts:21-25 | the store starts in the initial state |
| AuthStore.Store.SetAccount | apps/app/lib/stores/auth.store.ts:26 | the new state is `Apply` of setAccount to the old |
| AuthStore.Store.SetToken | apps/app/lib/stores/auth.store.ts:27 | the new state is `Apply` of setToken to the old |
| AuthStore.Store.Login | apps/app/lib/stores/auth.store.ts:28 | the new state is `Apply` of login to the old |
| AuthStore.Store.Logout | apps/app/lib/stores/auth.store.ts:29 | the new state is `Apply` of logout to the old |
| AuthStore.Store.Initialize | apps/app/lib/stores/auth.store.ts:30 | the new state is `Apply` of initialize to the old |
| Pagination.Run | apps/app/components/Pagination.tsx:52-54 | the numbers a to b in order, one entry each |
| Pagination.PushNumbers | apps/app/components/Pagination.tsx:85-87 | the loop appends exactly the run from..to |
| Pagination.LaidLayout | apps/app/components/Pagination.tsx:80-95 | a list built by pushing only what may follow, ending in a number, starts with a number, is increasing and consecutive between neighbours, has its ellipses only between numbers that skip pages, and keeps its numbers between the first and the last |
| Pagination.RunLayout | apps/app/components/Pagination.tsx:50-54 | the run 1..totalPages has that layout and its numbers lie in 1..totalPages |
| Pagination.RunHasEveryPage | apps/app/components/Pagination.tsx:50-54 | every page of 1..totalPages is in the run |
| Pagination.WindowedLaid | apps/app/components/Pagination.tsx:57-95 | the assembled list for a window of five inside 2..totalPages-1 is built by pushing only what may follow, has seven numbers and ends with the last page |
| Pagination.WindowedShowsWindow | apps/app/components/Pagination.tsx:84-87 | every page of the window is in the list |
| Pagination.WindowedLayout | apps/app/components/Pagination.tsx:57-95 | the assembled list starts with 1, ends with totalPages, has seven numbers and the layout |
| Pagination.GetPageNumbers | apps/app/components/Pagination.tsx:46-99 | for at most seven pages exactly 1..totalPages; otherwise first 1, last totalPages, seven numbers; always increasing, consecutive between neighbours, ellipses exactly at gaps, numbers within range, the current page present when in range |
| Pagination.WindowedPageNumbers | apps/app/components/Pagination.tsx:55-96 | for more than seven pages: first 1, last totalPages, seven numbers, the layout, and the current page present |
| Pagination.WindowBounds | apps/app/components/Pagination.tsx:61-77 | the window is five pages inside 2..totalPages-1 and covers the current page unless that is the first or last |
| Pagination.AssembleWindow | apps/app/components/Pagination.tsx:57-95 | the pushes build the first page, the optional ellipses around the window, and the last page |
| Pagination.HandlePrev | apps/app/components/Pagination.tsx:24-31 | requests a page iff the current page is above 1, and then the previous one |
| Pagination.HandleNext | apps/app/components/Pagination.tsx:25-37 | requests a page iff the current page is below the total, and then the next one |
| Pagination.HandlePageClick | apps/app/components/Pagination.tsx:39-43 | requests a page iff it is not the current one, and then exactly that page |
| Pagination.NavigationStaysInRange | apps/app/components/Pagination.tsx:24-37 | from a page in range, Prev and Next request only pages in range |
| HistoryGraph.SortedHistories | apps/app/components/EmployeeHistoryGraph.tsx:27-31 | a permutation of the entries, by start time non-increasing, a missing start counting as 0 |
| HistoryGraph.NonIncreasing | apps/app/components/EmployeeHistoryGraph.tsx:27-31 | neighbours in comparator order give every pair in order |
| HistoryGraph.OrElse | apps/app/components/EmployeeHistoryGraph.tsx:66 | the name when truthy, the fallback otherwise |
| HistoryGraph.RowOf | apps/app/components/EmployeeHistoryGraph.tsx:37-70 | ongoing iff there is no end date; caption "Currently" for ongoing entries, "Worked as" otherwise; connector iff not last |
| HistoryGraph.Timeline | apps/app/components/EmployeeHistoryGraph.tsx:36-44 | one row per entry, in sorted order, with a connector on every row but the last |
| HistoryGraph.MostRecentFirst | apps/app/components/EmployeeHistoryGraph.tsx:27-31 | the first row shows an entry whose start time is the latest |
| Sorting.InsertionSort | apps/app/components/EmployeeHistoryGraph.tsx:27 | the result is sorted by the comparator and is a permutation of the input |
| Text.Split | apps/api/src/graphql/auth/auth.guard.ts:43 | at least one piece; exactly one iff the separator does not occur; no piece contains the separator |
| Text.JoinSplit | apps/api/src/graphql/auth/auth.guard.ts:43 | joining the pieces of a split gives the string back |
| Text.SplitJoin | apps/api/src/graphql/auth/auth.guard.ts:43 | splitting the join of separator-free pieces gives the pieces back |
| Text.LexTotal | apps/api/src/graphql/employee/employee.resolver.ts:90 | the name order relates any two names |
| Text.LexTransitive | apps/api/src/graphql/employee/employee.resolver.ts:90 | the name order is transitive |

## Left out

- CASL internals (`AbilityBuilder`, `createMongoAbility`, the Mongo query engine) are replaced by the explicit rule list and matcher of `Ability`. Class identity of subjects is an explicit tag.
- JWT verification is the parameter `verify` of `AuthGuard.Authenticate`. It gives the payload's account id, or nothing when verification throws. The bcrypt hash of a new account's password is the parameter `passwordHash` of `EmployeeLifecycle.Create`.
- `AuthGuard.CanActivate` models the account loaded without relations as the account row alone. As the code is written, every non-admin `employees` query therefore fails at `user.employee!` (`AsWrittenOnlyAdminsList`, a finding below). The scoping lemmas `EmployeeSeesOnlyThemself` and `ManagerSeesOnlyReports` describe a caller whose employee is loaded, which is the intended behaviour. Loading it takes more than adding the relation to the guard's query: the account side joins through `accounts.employeeId`, which nothing writes, so `LinkedEmployee` follows `employees.accountId` instead. The ability factory's `Principal` is an input as well; how the policies guard loads it is not part of this model.
- Persistence:
  - TypeORM repositories are maps and sequences.
  - Foreign keys are not modelled beyond the assumption `IdsNonEmpty` of the invariant lemmas.
  - SQL `LIKE` wildcards and case folding are not modelled: the filter is a plain substring test.
  - Collation is not modelled: names order by code units.
  - The database's order among rows that tie on the sort key is not modelled. The model keeps insertion-sort order and proves no stability.
  - `findOneOrFail` and the unique email column are error values.
- EmployeeLifecycle.RecordChange: the close time of the latest row and the start of the new row are both `now`; the code reads the clock twice, once for each.
- EmployeeLifecycle.OpenedRow: its start is the same `now` as the close time of the previous row, for the reason just given.
- HistoryTable.Latest: rows with equal start dates resolve to the first in table order. The database may pick any of them.
- EmployeeLifecycle.SaveUpdate: an input `accountId` that differs from the loaded account relation is not modelled. The email is written to the account the row was loaded with. How TypeORM's cascade reconciles the two is not part of this model.
- An explicit GraphQL `null` for an optional input field is treated like an absent field.
- Negative or fractional `skip`/`take` are outside the model: they are `nat`.
- Concurrency is not modelled. Concurrent `updateEmployee` calls and the parallel `Promise.all` of the policies guard run as one sequence.
- `Date` values are integer timestamps. An invalid date (`NaN`) is not modelled.
- The zustand `persist` middleware is reduced to `Partialize` and its default merge `Rehydrate`. Storage I/O and the hydration callbacks are not part of this model.
- The JSX of `Pagination` and `EmployeeHistoryGraph` (classes, icons, date formatting) is left out. Only the computed lists and row captions are modelled.
- Sorting.InsertionSort: stands for `Array.prototype.sort` and `ORDER BY`. Its contract states sortedness and permutation but not stability.

## Findings

| source | as written | input that shows it | evidently intended | confidence | as-written member | corrected member |
|---|---|---|---|---|---|---|
| apps/api/src/graphql/employee/employee.policy-handler.ts:45-48 | the row loaded from the entity repository is handed to `ability.can`; its subject type is the entity class, which no non-admin rule names, so only admins ever pass | an EMPLOYEE updating their own record with their own position and department | the loaded row is checked as an employee record (`EmployeeModel`), the class the record rule is declared on | medium; not executed | EmployeePolicy.AsWrittenRefusesOwnRecord | EmployeePolicy.EmployeePassesIff |
| apps/api/src/graphql/employee/employee.mutation.ts:97-122 | the history rows are closed and inserted before the employee is saved, outside any transaction; a failing save leaves them behind | employee e1 in department d1 with an open history row; an admin moves e1 to d2 and gives the email of another account | the history writes and the save are one transaction: a failure writes nothing and the open row keeps matching the employee | high; not executed | EmployeeLifecycle.PartialWriteOnDuplicateEmail | EmployeeLifecycle.UpdateKeepsConsistent |
| apps/api/src/graphql/employee/employee.resolver.ts:100-112 | the caller is the account the authentication guard attached, loaded without its `employee` relation (apps/api/src/graphql/auth/auth.guard.ts:32-34), so `user.employee!.id` throws for every manager and employee; only admins get a page | an EMPLOYEE whose account has an employee row sends a valid token and queries `employees` | the caller's employee is loaded, and a manager sees their direct reports and an employee their own record; since `AccountEntity.employee` carries its own `@JoinColumn` on `accounts.employeeId` (apps/api/src/db/entities/account.entity.ts:33-35), a column nothing writes, loading it also needs that join column removed so that the relation becomes the inverse of `employee.account` | high; not executed | EmployeeList.AsWrittenOnlyAdminsList | EmployeeList.LoadedCallerListsOwnScope |

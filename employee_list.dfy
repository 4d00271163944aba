/** The `employees` query: paging defaults, sort choice, role scoping and the
    name-or-email filter, evaluated over the `employees` table in table order
    with `accounts` joined for the email. */
module EmployeeList {
  import opened Wrappers
  import opened Domain
  import opened Text
  import opened Sorting
  import AuthGuard

  datatype SortableField = Name | JoinDateAsc | JoinDateDesc

  /** `GetEmployeesArgs`; absent arguments are `None`. */
  datatype Args = Args(skip: Option<nat>, take: Option<nat>, filter: Option<string>, sortby: Option<SortableField>)

  datatype Order = NameAsc | CreatedAtAsc | CreatedAtDesc

  /** One object of the `where` array; an absent field places no condition,
      and a `Like('%f%')` pattern is kept as `f`. */
  datatype Condition = Condition(id: Option<Id>, reportsToId: Option<Id>, nameLike: Option<string>, emailLike: Option<string>)

  datatype FindOptions = FindOptions(skip: nat, take: nat, order: Option<Order>, where: seq<Condition>)

  /** `Math.ceil(total / take)`: a page count, or what the division by a zero
      `take` gives. */
  datatype TotalPages = Pages(n: nat) | Infinity | NaN

  datatype EmployeePage = EmployeePage(items: seq<EmployeeRow>, total: nat, totalPage: TotalPages)

  /** Which rows a caller may see. */
  datatype Scope = Everyone | Own(id: Id) | ReportsTo(managerId: Id)

  /** The scope the resolver derives from the caller's role; `None` where it
      dereferences `user.employee!` and the account carries no employee. */
  function ScopeOf(caller: Principal): (r: Option<Scope>)
    ensures caller.account.role == Admin ==> r == Some(Everyone)
    ensures caller.account.role != Admin ==> (r.None? <==> caller.employee.None?)
    ensures caller.account.role == Employee && caller.employee.Some? ==> r == Some(Own(caller.employee.value.id))
    ensures caller.account.role == Manager && caller.employee.Some? ==> r == Some(ReportsTo(caller.employee.value.id))
  {
    match caller.account.role
    case Admin => Some(Everyone)
    case Employee => if caller.employee.Some? then Some(Own(caller.employee.value.id)) else None
    case Manager => if caller.employee.Some? then Some(ReportsTo(caller.employee.value.id)) else None
  }

  function EmailOf(e: EmployeeRow, accounts: map<Id, Account>): Option<string> {
    if e.accountId.Some? && e.accountId.value in accounts then Some(accounts[e.accountId.value].email) else None
  }

  /** A row satisfies a condition object when it satisfies each field it sets;
      the email pattern needs a joined account. */
  predicate Satisfies(c: Condition, e: EmployeeRow, accounts: map<Id, Account>) {
    && (c.id.Some? ==> e.id == c.id.value)
    && (c.reportsToId.Some? ==> e.reportsToId == c.reportsToId)
    && (c.nameLike.Some? ==> Contains(e.name, c.nameLike.value))
    && (c.emailLike.Some? ==> EmailOf(e, accounts).Some? && Contains(EmailOf(e, accounts).value, c.emailLike.value))
  }

  /** The `where` array is a disjunction of its objects. */
  predicate SatisfiesAny(where: seq<Condition>, e: EmployeeRow, accounts: map<Id, Account>) {
    exists i :: 0 <= i < |where| && Satisfies(where[i], e, accounts)
  }

  predicate InScope(scope: Scope, e: EmployeeRow) {
    match scope
    case Everyone => true
    case Own(id) => e.id == id
    case ReportsTo(m) => e.reportsToId == Some(m)
  }

  /** The filter's meaning: none (absent or empty), or a piece of the name or
      of the account email. */
  predicate PassesFilter(filter: Option<string>, e: EmployeeRow, accounts: map<Id, Account>) {
    !Truthy(filter) || Contains(e.name, filter.value) ||
    (EmailOf(e, accounts).Some? && Contains(EmailOf(e, accounts).value, filter.value))
  }

  function OrderFor(sortby: Option<SortableField>): (o: Option<Order>)
    ensures o.None? <==> sortby.None?
  {
    match sortby
    case None => None
    case Some(Name) => Some(NameAsc)
    case Some(JoinDateAsc) => Some(CreatedAtAsc)
    case Some(JoinDateDesc) => Some(CreatedAtDesc)
  }

  /** The find options the resolver builds: defaults 0 and 10, and a `where`
      array that selects exactly the in-scope rows passing the filter. */
  function FindOptionsFor(args: Args, scope: Scope): (opts: FindOptions)
    ensures opts.skip == args.skip.GetOr(0) && opts.take == args.take.GetOr(10)
    ensures opts.order == OrderFor(args.sortby)
    ensures forall e, accounts :: SatisfiesAny(opts.where, e, accounts) <==> InScope(scope, e) && PassesFilter(args.filter, e, accounts)
  {
    var id := if scope.Own? then Some(scope.id) else None;
    var reportsTo := if scope.ReportsTo? then Some(scope.managerId) else None;
    var where :=
      if Truthy(args.filter) then
        [Condition(id, reportsTo, args.filter, None), Condition(id, reportsTo, None, args.filter)]
      else
        [Condition(id, reportsTo, None, None)];
    assert forall e, accounts :: Satisfies(where[0], e, accounts) ==> SatisfiesAny(where, e, accounts);
    assert forall e, accounts :: |where| == 2 && Satisfies(where[1], e, accounts) ==> SatisfiesAny(where, e, accounts);
    FindOptions(args.skip.GetOr(0), args.take.GetOr(10), OrderFor(args.sortby), where)
  }

  /** The resolver's own construction of the options: assignments and pushes
      onto the `where` array. */
  method BuildFindOptions(args: Args, scope: Scope) returns (opts: FindOptions)
    ensures opts == FindOptionsFor(args, scope)
  {
    var skip := if args.skip.Some? then args.skip.value else 0;
    var take := if args.take.Some? then args.take.value else 10;
    opts := FindOptions(skip, take, None, []);
    if args.sortby == Some(Name) {
      opts := opts.(order := Some(NameAsc));
    } else if args.sortby == Some(JoinDateAsc) {
      opts := opts.(order := Some(CreatedAtAsc));
    } else if args.sortby == Some(JoinDateDesc) {
      opts := opts.(order := Some(CreatedAtDesc));
    }
    var id := if scope.Own? then Some(scope.id) else None;
    var reportsTo := if scope.ReportsTo? then Some(scope.managerId) else None;
    var where: seq<Condition> := [];
    if args.filter.Some? && args.filter.value != "" {
      where := where + [Condition(id, reportsTo, args.filter, None)];
      where := where + [Condition(id, reportsTo, None, args.filter)];
    } else {
      where := where + [Condition(id, reportsTo, None, None)];
    }
    opts := opts.(where := where);
  }

  /** The rows satisfying `where`, in table order. */
  function Matching(rows: seq<EmployeeRow>, where: seq<Condition>, accounts: map<Id, Account>): (r: seq<EmployeeRow>)
    ensures |r| <= |rows|
    ensures forall e :: e in r <==> e in rows && SatisfiesAny(where, e, accounts)
    ensures multiset(r) <= multiset(rows)
    ensures forall e :: multiset(r)[e] == if SatisfiesAny(where, e, accounts) then multiset(rows)[e] else 0
  {
    if rows == [] then []
    else
      var rest := Matching(rows[1..], where, accounts);
      assert rows == [rows[0]] + rows[1..];
      if SatisfiesAny(where, rows[0], accounts) then [rows[0]] + rest else rest
  }

  function Before(order: Order): (EmployeeRow, EmployeeRow) -> bool {
    match order
    case NameAsc => (a: EmployeeRow, b: EmployeeRow) => LexLe(a.name, b.name)
    case CreatedAtAsc => (a: EmployeeRow, b: EmployeeRow) => a.createdAt <= b.createdAt
    case CreatedAtDesc => (a: EmployeeRow, b: EmployeeRow) => a.createdAt >= b.createdAt
  }

  lemma BeforeIsTotal(order: Order)
    ensures Total(Before(order))
  {
    if order == NameAsc {
      forall a: EmployeeRow, b: EmployeeRow ensures Before(order)(a, b) || Before(order)(b, a) {
        LexTotal(a.name, b.name);
      }
    }
  }

  /** `ORDER BY` on the chosen column; without an order the table order is kept. */
  function Ordered(rows: seq<EmployeeRow>, order: Option<Order>): (r: seq<EmployeeRow>)
    ensures multiset(r) == multiset(rows)
    ensures order.Some? ==> Sorted(r, Before(order.value))
  {
    if order.None? then rows
    else
      BeforeIsTotal(order.value);
      InsertionSort(rows, Before(order.value))
  }

  /** `OFFSET skip LIMIT take`, where a zero `take` sets no limit. */
  function Window<T>(s: seq<T>, skip: nat, take: nat): (r: seq<T>)
    ensures take > 0 ==> |r| <= take
    ensures skip >= |s| ==> r == []
    ensures skip < |s| ==> r == s[skip..if take == 0 || skip + take > |s| then |s| else skip + take]
  {
    if skip >= |s| then []
    else if take == 0 || skip + take > |s| then s[skip..]
    else s[skip..skip + take]
  }

  /** `findAndCount`: a window of the ordered matching rows and the number of
      all matching rows. */
  function FindAndCount(rows: seq<EmployeeRow>, accounts: map<Id, Account>, opts: FindOptions): (r: (seq<EmployeeRow>, nat))
    ensures r.1 == |Matching(rows, opts.where, accounts)|
    ensures r.0 == Window(Ordered(Matching(rows, opts.where, accounts), opts.order), opts.skip, opts.take)
  {
    var matched := Matching(rows, opts.where, accounts);
    (Window(Ordered(matched, opts.order), opts.skip, opts.take), |matched|)
  }

  /** `Math.ceil(total / take)` as JavaScript evaluates it. */
  function TotalPage(total: nat, take: nat): (p: TotalPages)
    ensures take > 0 ==> p.Pages? && total <= p.n * take && (p.n == 0 || (p.n - 1) * take < total)
    ensures take == 0 ==> p == if total == 0 then NaN else Infinity
  {
    if take == 0 then (if total == 0 then NaN else Infinity)
    else Pages((total + take - 1) / take)
  }

  /** `getEmployees`; `None` where the scope cannot be derived. */
  function GetEmployees(args: Args, caller: Principal, rows: seq<EmployeeRow>, accounts: map<Id, Account>): (r: Option<EmployeePage>)
    ensures r.None? <==> ScopeOf(caller).None?
  {
    match ScopeOf(caller)
    case None => None
    case Some(scope) =>
      var opts := FindOptionsFor(args, scope);
      var (items, total) := FindAndCount(rows, accounts, opts);
      Some(EmployeePage(items, total, TotalPage(total, opts.take)))
  }

  /** Every listed row is in the table, in the caller's scope and passes the
      filter; the total counts exactly those rows, whatever the paging. */
  lemma {:induction false} ListedRowsQualify(args: Args, caller: Principal, rows: seq<EmployeeRow>, accounts: map<Id, Account>)
    requires ScopeOf(caller).Some?
    ensures var page := GetEmployees(args, caller, rows, accounts).value;
      var qualifying := Matching(rows, FindOptionsFor(args, ScopeOf(caller).value).where, accounts);
      && page.total == |qualifying|
      && (forall e :: e in qualifying <==> e in rows && InScope(ScopeOf(caller).value, e) && PassesFilter(args.filter, e, accounts))
      && (forall e :: e in page.items ==> e in rows && InScope(ScopeOf(caller).value, e) && PassesFilter(args.filter, e, accounts))
  {
    var scope := ScopeOf(caller).value;
    var opts := FindOptionsFor(args, scope);
    var matched := Matching(rows, opts.where, accounts);
    var ordered := Ordered(matched, opts.order);
    var items := Window(ordered, opts.skip, opts.take);
    forall e | e in items ensures e in matched {
      assert e in multiset(ordered);
    }
  }

  /** An employee sees at most their own record. */
  lemma EmployeeSeesOnlyThemself(args: Args, caller: Principal, rows: seq<EmployeeRow>, accounts: map<Id, Account>)
    requires caller.account.role == Employee && caller.employee.Some?
    ensures forall e :: e in GetEmployees(args, caller, rows, accounts).value.items ==> e.id == caller.employee.value.id
  {
    ListedRowsQualify(args, caller, rows, accounts);
  }

  /** A manager sees only direct reports. */
  lemma ManagerSeesOnlyReports(args: Args, caller: Principal, rows: seq<EmployeeRow>, accounts: map<Id, Account>)
    requires caller.account.role == Manager && caller.employee.Some?
    ensures forall e :: e in GetEmployees(args, caller, rows, accounts).value.items ==> e.reportsToId == Some(caller.employee.value.id)
  {
    ListedRowsQualify(args, caller, rows, accounts);
  }

  /** As written, the caller reaches the query through the authentication
      guard, which loads the account without its `employee` relation: the
      query yields a page for an admitted caller iff the caller is an admin,
      and throws for every manager and employee. */
  lemma AsWrittenOnlyAdminsList(args: Args, header: Option<string>, verify: string -> Option<Id>,
                                accounts: map<Id, Account>, rows: seq<EmployeeRow>)
    requires AuthGuard.Authenticate(header, verify, accounts).Some?
    ensures var user := AuthGuard.Authenticate(header, verify, accounts).value;
      GetEmployees(args, Principal(user, None, None), rows, accounts).Some? <==> user.role == Admin
  {
  }

  /** The account's employee as the inverse of `employee.account`: the first
      row, in table order, whose `accountId` is the account's id. */
  function LinkedEmployee(a: Account, rows: seq<EmployeeRow>): (r: Option<EmployeeRow>)
    ensures r.Some? <==> exists e :: e in rows && e.accountId == Some(a.id)
    ensures r.Some? ==> r.value in rows && r.value.accountId == Some(a.id)
  {
    if rows == [] then None
    else if rows[0].accountId == Some(a.id) then Some(rows[0])
    else
      assert forall e :: e in rows && e != rows[0] ==> e in rows[1..];
      LinkedEmployee(a, rows[1..])
  }

  /** With the caller's employee found through `employees.accountId`, every
      caller whose account has an employee row gets a page, whatever the role:
      an employee lists only their own record, a manager only their direct
      reports. */
  lemma LoadedCallerListsOwnScope(args: Args, user: Account, rows: seq<EmployeeRow>, accounts: map<Id, Account>)
    ensures var caller := Principal(user, LinkedEmployee(user, rows), None);
      && (GetEmployees(args, caller, rows, accounts).Some? <==>
            user.role == Admin || exists e :: e in rows && e.accountId == Some(user.id))
      && (user.role == Employee && caller.employee.Some? ==>
            forall e :: e in GetEmployees(args, caller, rows, accounts).value.items ==> e.id == caller.employee.value.id)
      && (user.role == Manager && caller.employee.Some? ==>
            forall e :: e in GetEmployees(args, caller, rows, accounts).value.items ==> e.reportsToId == Some(caller.employee.value.id))
  {
    var caller := Principal(user, LinkedEmployee(user, rows), None);
    if user.role == Employee && caller.employee.Some? {
      EmployeeSeesOnlyThemself(args, caller, rows, accounts);
    } else if user.role == Manager && caller.employee.Some? {
      ManagerSeesOnlyReports(args, caller, rows, accounts);
    }
  }

  /** An admin is not scoped: without a filter every row counts. */
  lemma {:induction false} AdminCountsEveryRow(args: Args, caller: Principal, rows: seq<EmployeeRow>, accounts: map<Id, Account>)
    requires caller.account.role == Admin && !Truthy(args.filter)
    ensures GetEmployees(args, caller, rows, accounts).value.total == |rows|
  {
    var opts := FindOptionsFor(args, Everyone);
    MatchingAll(rows, opts.where, accounts);
  }

  lemma {:induction false} MatchingAll(rows: seq<EmployeeRow>, where: seq<Condition>, accounts: map<Id, Account>)
    requires forall e :: SatisfiesAny(where, e, accounts)
    ensures Matching(rows, where, accounts) == rows
  {
    if rows != [] {
      MatchingAll(rows[1..], where, accounts);
      assert rows == [rows[0]] + rows[1..];
    }
  }

  /** With a filter, an in-scope row is counted iff its name or its account
      email contains the filter. */
  lemma FilterMatchesNameOrEmail(args: Args, caller: Principal, rows: seq<EmployeeRow>, accounts: map<Id, Account>, e: EmployeeRow)
    requires ScopeOf(caller).Some? && Truthy(args.filter)
    requires e in rows && InScope(ScopeOf(caller).value, e)
    ensures e in Matching(rows, FindOptionsFor(args, ScopeOf(caller).value).where, accounts) <==>
      Contains(e.name, args.filter.value) ||
      (EmailOf(e, accounts).Some? && Contains(EmailOf(e, accounts).value, args.filter.value))
  {
  }

  /** The listed page is in the requested order and holds at most `take` rows
      (10 by default), beginning at offset `skip` (0 by default). */
  lemma {:induction false} PageIsOrderedWindow(args: Args, caller: Principal, rows: seq<EmployeeRow>, accounts: map<Id, Account>)
    requires ScopeOf(caller).Some? && args.sortby.Some?
    ensures var page := GetEmployees(args, caller, rows, accounts).value;
      var take := args.take.GetOr(10);
      && (take > 0 ==> |page.items| <= take)
      && Sorted(page.items, Before(OrderFor(args.sortby).value))
      && (args.skip.GetOr(0) >= page.total ==> page.items == [])
  {
    var scope := ScopeOf(caller).value;
    var opts := FindOptionsFor(args, scope);
    var matched := Matching(rows, opts.where, accounts);
    var ordered := Ordered(matched, opts.order);
    assert |ordered| == |matched| by {
      assert |multiset(ordered)| == |multiset(matched)|;
    }
    WindowKeepsOrder(ordered, opts.skip, opts.take, Before(opts.order.value));
  }

  /** A window of an ordered sequence is ordered. */
  lemma WindowKeepsOrder<T>(s: seq<T>, skip: nat, take: nat, le: (T, T) -> bool)
    requires Sorted(s, le)
    ensures Sorted(Window(s, skip, take), le)
  {
    var w := Window(s, skip, take);
    if skip < |s| {
      forall i | 0 < i < |w| ensures le(w[i - 1], w[i]) {
        assert w[i - 1] == s[skip + i - 1] && w[i] == s[skip + i];
      }
    }
  }

}

/** The `createEmployee` and `updateEmployee` mutations over the `employees`,
    `accounts` and `employee_histories` tables: what each writes, the history
    rows an assignment change produces, and the invariant that the open
    history row of every employee records its current assignment. */
module EmployeeLifecycle {
  import opened Wrappers
  import opened Domain
  import opened HistoryTable

  /** The `EmployeeInput` GraphQL input; an absent optional field is `None`. */
  datatype EmployeeInput = EmployeeInput(
    email: string,
    name: string,
    dob: int,
    accountId: Option<Id>,
    departmentId: Option<Id>,
    positionId: Option<Id>)

  /** Why a mutation throws: the role gate, `findOneOrFail`, a database
      constraint (unique email, not-null column, primary key), or the
      dereference of an account relation that is not there. */
  datatype LifecycleError = Unauthorized | NotFound | ConstraintViolation | AccountNotLoaded

  /** The three tables; employees and accounts keyed by their primary key. */
  datatype Store = Store(employees: map<Id, EmployeeRow>, accounts: map<Id, Account>, histories: seq<HistoryRow>)

  type Outcome = (Store, Result<EmployeeRow, LifecycleError>)

  /** Change detection: the input names a department (truthy) other than the
      current one. */
  predicate DepartmentChanged(e: EmployeeRow, input: EmployeeInput) {
    Truthy(input.departmentId) && input.departmentId.value != e.departmentId
  }

  predicate PositionChanged(e: EmployeeRow, input: EmployeeInput) {
    Truthy(input.positionId) && input.positionId.value != e.positionId
  }

  predicate Changed(e: EmployeeRow, input: EmployeeInput) {
    DepartmentChanged(e, input) || PositionChanged(e, input)
  }

  /** `employeeRepo.merge(employee, rest)`: every field the input carries
      overwrites the row's; identity, manager and creation time are kept. */
  function Merge(e: EmployeeRow, input: EmployeeInput): (r: EmployeeRow)
    ensures r.id == e.id && r.reportsToId == e.reportsToId && r.createdAt == e.createdAt
    ensures r.name == input.name && r.dob == input.dob
    ensures input.departmentId.Some? ==> r.departmentId == input.departmentId.value
    ensures input.departmentId.None? ==> r.departmentId == e.departmentId
    ensures input.positionId.Some? ==> r.positionId == input.positionId.value
    ensures input.positionId.None? ==> r.positionId == e.positionId
    ensures input.accountId.Some? ==> r.accountId == input.accountId
    ensures input.accountId.None? ==> r.accountId == e.accountId
  {
    e.(name := input.name,
       dob := input.dob,
       accountId := if input.accountId.Some? then input.accountId else e.accountId,
       departmentId := input.departmentId.GetOr(e.departmentId),
       positionId := input.positionId.GetOr(e.positionId))
  }

  /** The inserted history row: the input's assignment, falling back to the
      current one with `??`, starting now and open. */
  function OpenedRow(e: EmployeeRow, input: EmployeeInput, now: int): (row: HistoryRow)
    ensures row.employeeId == e.id && row.startDate == now && row.endDate.None?
    ensures row.departmentId == Merge(e, input).departmentId
    ensures row.positionId == Merge(e, input).positionId
  {
    HistoryRow(e.id, input.departmentId.GetOr(e.departmentId), input.positionId.GetOr(e.positionId), now, None)
  }

  /** Closes the employee's latest open row and appends the new one. */
  function RecordChange(hs: seq<HistoryRow>, e: EmployeeRow, input: EmployeeInput, now: int): (r: seq<HistoryRow>)
    ensures |r| == |hs| + 1 && r[|hs|] == OpenedRow(e, input, now)
    ensures forall i :: 0 <= i < |hs| && hs[i].employeeId != e.id ==> r[i] == hs[i]
  {
    CloseLatest(hs, e.id, now) + [OpenedRow(e, input, now)]
  }

  /** Another account than `except` already holds `email`. */
  predicate EmailInUse(accounts: map<Id, Account>, email: string, except: Id) {
    exists k :: k in accounts && k != except && accounts[k].email == email
  }

  /** The last step of `updateEmployee` on the loaded employee `id`: the
      account email is set when the input's email is truthy, which dereferences
      the loaded account, and the save fails on the unique email column. The
      history table is left as given. */
  function SaveUpdate(s: Store, id: Id, input: EmployeeInput): (r: Outcome)
    requires id in s.employees
    ensures r.1.Err? ==> r.0 == s && (r.1.error == AccountNotLoaded || r.1.error == ConstraintViolation)
    ensures var e := s.employees[id];
      r.1.Err? <==> (input.email != "" &&
        (e.accountId.None? || e.accountId.value !in s.accounts ||
         (s.accounts[e.accountId.value].email != input.email && EmailInUse(s.accounts, input.email, e.accountId.value))))
    ensures r.1.Ok? ==> r.1.value == Merge(s.employees[id], input) && r.0.employees == s.employees[id := r.1.value] && r.0.histories == s.histories
    ensures r.1.Ok? ==> (r.0.accounts.Keys == s.accounts.Keys &&
      forall k :: k in s.accounts && Some(k) != s.employees[id].accountId ==> r.0.accounts[k] == s.accounts[k])
    ensures r.1.Ok? && input.email == "" ==> r.0.accounts == s.accounts
    ensures r.1.Ok? && input.email != "" ==> var k := s.employees[id].accountId.value;
      k in s.accounts && r.0.accounts[k] == s.accounts[k].(email := input.email)
  {
    var e := s.employees[id];
    var merged := Merge(e, input);
    if input.email == "" then
      (s.(employees := s.employees[id := merged]), Ok(merged))
    else if e.accountId.None? || e.accountId.value !in s.accounts then
      (s, Err(AccountNotLoaded))
    else
      var k := e.accountId.value;
      var a := s.accounts[k];
      if a.email == input.email then
        (s.(employees := s.employees[id := merged]), Ok(merged))
      else if EmailInUse(s.accounts, input.email, k) then
        (s, Err(ConstraintViolation))
      else
        (s.(employees := s.employees[id := merged],
            accounts := s.accounts[k := a.(email := input.email)]), Ok(merged))
  }

  /** `updateEmployee` as written: the history rows are written before the
      employee is saved and outside any transaction, so a failing save leaves
      them behind. */
  function UpdateAsWritten(s: Store, caller: Role, id: Id, input: EmployeeInput, now: int): (r: Outcome)
    ensures caller != Admin ==> r == (s, Err(Unauthorized))
    ensures caller == Admin && id !in s.employees ==> r == (s, Err(NotFound))
    ensures r.1.Ok? ==> id in s.employees && r.1.value == Merge(s.employees[id], input)
    ensures r.1.Err? && caller == Admin && id in s.employees && Changed(s.employees[id], input) ==>
      r.0.histories == RecordChange(s.histories, s.employees[id], input, now)
  {
    if caller != Admin then (s, Err(Unauthorized))
    else if id !in s.employees then (s, Err(NotFound))
    else
      var e := s.employees[id];
      var hs := if Changed(e, input) then RecordChange(s.histories, e, input, now) else s.histories;
      var saved := SaveUpdate(s.(histories := hs), id, input);
      (saved.0.(histories := hs), saved.1)
  }

  /** `updateEmployee` with its writes in one transaction: a failure leaves
      every table as it was. */
  function UpdateInTransaction(s: Store, caller: Role, id: Id, input: EmployeeInput, now: int): (r: Outcome)
    ensures r.1.Err? ==> r.0 == s
    ensures r.1.Ok? ==> r == UpdateAsWritten(s, caller, id, input, now)
  {
    var r := UpdateAsWritten(s, caller, id, input, now);
    if r.1.Err? then (s, r.1) else r
  }

  /** `createEmployee`: an admin creates the employee together with a fresh
      account of role EMPLOYEE; the save is one transaction, and no history
      row is written. `employeeId` and `accountId` are the generated keys. */
  function Create(s: Store, caller: Role, input: EmployeeInput, employeeId: Id, accountId: Id, passwordHash: string, now: int): (r: Outcome)
    ensures r.1.Err? ==> r.0 == s
    ensures r.1.Ok? <==>
      && caller == Admin
      && input.departmentId.Some? && input.positionId.Some?
      && employeeId !in s.employees && accountId !in s.accounts
      && !EmailInUse(s.accounts, input.email, accountId)
    ensures caller != Admin ==> r.1 == Err(Unauthorized)
    ensures r.1.Ok? ==>
      && r.0.employees == s.employees[employeeId := r.1.value]
      && r.0.accounts == s.accounts[accountId := Account(accountId, input.email, passwordHash, Employee)]
      && r.0.histories == s.histories
      && r.1.value.id == employeeId && r.1.value.accountId == Some(accountId)
      && r.1.value.name == input.name && r.1.value.dob == input.dob
      && r.1.value.departmentId == input.departmentId.value && r.1.value.positionId == input.positionId.value
      && r.1.value.reportsToId.None? && r.1.value.createdAt == now
  {
    if caller != Admin then (s, Err(Unauthorized))
    else if input.departmentId.None? || input.positionId.None? then (s, Err(ConstraintViolation))
    else if employeeId in s.employees || accountId in s.accounts || EmailInUse(s.accounts, input.email, accountId) then
      (s, Err(ConstraintViolation))
    else
      var row := EmployeeRow(employeeId, input.name, input.dob, input.departmentId.value, input.positionId.value,
                             Some(accountId), None, now);
      var account := Account(accountId, input.email, passwordHash, Employee);
      (Store(s.employees[employeeId := row], s.accounts[accountId := account], s.histories), Ok(row))
  }

  /** The store invariant: employees are keyed by their id, every history row
      belongs to a stored employee, and every employee is tracked. */
  predicate Consistent(s: Store) {
    && (forall k :: k in s.employees ==> s.employees[k].id == k)
    && (forall i :: 0 <= i < |s.histories| ==> s.histories[i].employeeId in s.employees)
    && (forall k :: k in s.employees ==> Tracked(s.histories, s.employees[k]))
  }

  /** The input names no empty department or position: the foreign keys admit
      no empty id, and an empty one is the only value that `merge` applies but
      change detection ignores. */
  predicate IdsNonEmpty(input: EmployeeInput) {
    (input.departmentId.Some? ==> input.departmentId.value != "")
    && (input.positionId.Some? ==> input.positionId.value != "")
  }

  /** An unchanged assignment keeps the employee tracked by the same rows. */
  lemma UnchangedStaysTracked(hs: seq<HistoryRow>, e: EmployeeRow, input: EmployeeInput)
    requires Tracked(hs, e) && IdsNonEmpty(input) && !Changed(e, input)
    ensures Tracked(hs, Merge(e, input))
  {
  }

  /** A change keeps the employee tracked: its only open row is the new one. */
  lemma {:induction false} ChangeStaysTracked(hs: seq<HistoryRow>, e: EmployeeRow, input: EmployeeInput, now: int)
    requires Tracked(hs, e) && StartedBefore(hs, now)
    ensures Tracked(RecordChange(hs, e, input, now), Merge(e, input))
    ensures OpenRows(RecordChange(hs, e, input, now), e.id) == {|hs|}
  {
    AppendedRowIsTheOpenOne(hs, e.id, now, OpenedRow(e, input, now));
  }

  /** Every successful update keeps the store consistent, provided the clock
      has moved past every recorded start date. */
  lemma {:induction false} UpdateKeepsConsistent(s: Store, caller: Role, id: Id, input: EmployeeInput, now: int)
    requires Consistent(s) && StartedBefore(s.histories, now) && IdsNonEmpty(input)
    ensures Consistent(UpdateInTransaction(s, caller, id, input, now).0)
  {
    var r := UpdateInTransaction(s, caller, id, input, now);
    if r.1.Ok? {
      var e := s.employees[id];
      var merged := Merge(e, input);
      var hs := r.0.histories;
      assert r.0.employees == s.employees[id := merged];
      if Changed(e, input) {
        assert hs == RecordChange(s.histories, e, input, now);
        ChangeStaysTracked(s.histories, e, input, now);
        forall k | k in r.0.employees && k != id ensures Tracked(hs, r.0.employees[k]) {
          OthersStayTracked(s.histories, id, now, OpenedRow(e, input, now), s.employees[k]);
        }
        forall i | 0 <= i < |hs| ensures hs[i].employeeId in r.0.employees {
          if i < |s.histories| && s.histories[i].employeeId != id {
            assert hs[i] == s.histories[i];
          }
        }
      } else {
        assert hs == s.histories;
        UnchangedStaysTracked(s.histories, e, input);
      }
    }
  }

  /** A created employee has no history row, and the store stays consistent. */
  lemma CreateKeepsConsistent(s: Store, caller: Role, input: EmployeeInput, employeeId: Id, accountId: Id, passwordHash: string, now: int)
    requires Consistent(s)
    ensures var r := Create(s, caller, input, employeeId, accountId, passwordHash, now);
      && Consistent(r.0)
      && (r.1.Ok? ==> Latest(r.0.histories, employeeId).None?)
  {
  }

  /** Only an admin changes anything, through either mutation. */
  lemma NonAdminChangesNothing(s: Store, caller: Role, id: Id, input: EmployeeInput, employeeId: Id, accountId: Id, passwordHash: string, now: int)
    requires caller != Admin
    ensures UpdateAsWritten(s, caller, id, input, now) == (s, Err(Unauthorized))
    ensures Create(s, caller, input, employeeId, accountId, passwordHash, now) == (s, Err(Unauthorized))
  {
  }

  /** An update writes history exactly when the assignment changes, and then
      exactly one row, which is open, starts now and is the latest. */
  lemma {:induction false} HistoryWrittenIffChanged(s: Store, id: Id, input: EmployeeInput, now: int)
    requires Consistent(s) && StartedBefore(s.histories, now)
    requires UpdateInTransaction(s, Admin, id, input, now).1.Ok?
    ensures var hs := UpdateInTransaction(s, Admin, id, input, now).0.histories;
      && (Changed(s.employees[id], input) <==> hs != s.histories)
      && (Changed(s.employees[id], input) ==>
            |hs| == |s.histories| + 1 && Latest(hs, id) == Some(|s.histories|) && OpenRows(hs, id) == {|s.histories|})
  {
    var e := s.employees[id];
    if Changed(e, input) {
      ChangeStaysTracked(s.histories, e, input, now);
      AppendedRowIsTheOpenOne(s.histories, id, now, OpenedRow(e, input, now));
    }
  }

  /** Sending the same input again after a successful update writes no
      further history row: the merged row already holds the assignment. */
  lemma RepeatedUpdateRecordsNothing(e: EmployeeRow, input: EmployeeInput)
    ensures !Changed(Merge(e, input), input)
    ensures Merge(Merge(e, input), input) == Merge(e, input)
  {
  }

  /** Rows of other employees and other accounts are left alone. */
  lemma UpdateTouchesOnlyItsEmployee(s: Store, caller: Role, id: Id, input: EmployeeInput, now: int)
    requires UpdateInTransaction(s, caller, id, input, now).1.Ok?
    ensures var t := UpdateInTransaction(s, caller, id, input, now).0;
      && t.employees.Keys == s.employees.Keys
      && (forall k :: k in s.employees && k != id ==> t.employees[k] == s.employees[k])
      && t.accounts.Keys == s.accounts.Keys
      && (forall k :: k in s.accounts && Some(k) != s.employees[id].accountId ==> t.accounts[k] == s.accounts[k])
      && (forall i :: 0 <= i < |s.histories| && s.histories[i].employeeId != s.employees[id].id ==> t.histories[i] == s.histories[i])
  {
  }

  /** The store of the partial-write counterexample: one employee with an open
      history row in department d1, and a second account holding `y@x`. */
  function PartialWriteStore(): (s: Store)
    ensures Consistent(s)
  {
    var e := EmployeeRow("e1", "Ann", 0, "d1", "p1", Some("a1"), None, 0);
    Store(map["e1" := e],
          map["a1" := Account("a1", "a@x", "h", Employee), "a2" := Account("a2", "y@x", "h", Employee)],
          [HistoryRow("e1", "d1", "p1", 0, None)])
  }

  /** The update of the counterexample: e1 moves to d2 and takes the email
      "y@x" that account a2 already holds. */
  function DuplicateEmailInput(): EmployeeInput {
    EmployeeInput("y@x", "Ann", 0, None, Some("d2"), None)
  }

  /** As written, moving e1 to d2 while taking the email of another account
      fails on the unique email, yet the history already records d2: the store
      is left inconsistent. */
  lemma PartialWriteOnDuplicateEmail()
    ensures var s := PartialWriteStore();
      var r := UpdateAsWritten(s, Admin, "e1", DuplicateEmailInput(), 1);
      && Consistent(s)
      && r.1 == Err(ConstraintViolation)
      && r.0.histories != s.histories
      && !Consistent(r.0)
  {
    var s := PartialWriteStore();
    var input := DuplicateEmailInput();
    var e := s.employees["e1"];
    assert Changed(e, input);
    var hs := RecordChange(s.histories, e, input, 1);
    assert |hs| == 2 && hs[1] == HistoryRow("e1", "d2", "p1", 1, None);
    assert EmailInUse(s.accounts, "y@x", "a1") by { assert s.accounts["a2"].email == "y@x"; }
    var saved := SaveUpdate(s.(histories := hs), "e1", input);
    assert saved == (s.(histories := hs), Err(ConstraintViolation));
    var r := UpdateAsWritten(s, Admin, "e1", input, 1);
    assert r.0 == s.(histories := hs);
    assert Latest(hs, "e1") == Some(1);
    assert !Tracked(hs, r.0.employees["e1"]);
  }

  /** The same update in one transaction writes nothing. */
  lemma TransactionWritesNothingOnDuplicateEmail()
    ensures var s := PartialWriteStore();
      UpdateInTransaction(s, Admin, "e1", DuplicateEmailInput(), 1) == (s, Err(ConstraintViolation))
  {
    PartialWriteOnDuplicateEmail();
  }

  /** The tables as `EmployeeMutation` sees them through its repositories. */
  class EmployeeMutation {
    var employees: map<Id, EmployeeRow>
    var accounts: map<Id, Account>
    var histories: seq<HistoryRow>

    function Snapshot(): Store
      reads this
    {
      Store(employees, accounts, histories)
    }

    constructor(s: Store)
      ensures Snapshot() == s
    {
      employees, accounts, histories := s.employees, s.accounts, s.histories;
    }

    /** `createEmployee`. */
    method CreateEmployee(caller: Role, input: EmployeeInput, employeeId: Id, accountId: Id, passwordHash: string, now: int)
      returns (r: Result<EmployeeRow, LifecycleError>)
      modifies this
      ensures (Snapshot(), r) == Create(old(Snapshot()), caller, input, employeeId, accountId, passwordHash, now)
      ensures old(Consistent(Snapshot())) ==> Consistent(Snapshot())
    {
      if Consistent(Snapshot()) {
        CreateKeepsConsistent(Snapshot(), caller, input, employeeId, accountId, passwordHash, now);
      }
      if caller != Admin {
        return Err(Unauthorized);
      }
      if input.departmentId.None? || input.positionId.None? {
        return Err(ConstraintViolation);
      }
      if employeeId in employees || accountId in accounts || EmailInUse(accounts, input.email, accountId) {
        return Err(ConstraintViolation);
      }
      var row := EmployeeRow(employeeId, input.name, input.dob, input.departmentId.value, input.positionId.value,
                             Some(accountId), None, now);
      accounts := accounts[accountId := Account(accountId, input.email, passwordHash, Employee)];
      employees := employees[employeeId := row];
      r := Ok(row);
    }

    /** `updateEmployee` as written: the history rows are written first and
        stay written when the save then fails. */
    method UpdateEmployee(caller: Role, id: Id, input: EmployeeInput, now: int)
      returns (r: Result<EmployeeRow, LifecycleError>)
      modifies this
      ensures (Snapshot(), r) == UpdateAsWritten(old(Snapshot()), caller, id, input, now)
      ensures r.Ok? && old(Consistent(Snapshot())) && old(StartedBefore(histories, now)) && IdsNonEmpty(input) ==> Consistent(Snapshot())
    {
      ghost var s := Snapshot();
      if old(Consistent(Snapshot())) && old(StartedBefore(histories, now)) && IdsNonEmpty(input) {
        UpdateKeepsConsistent(s, caller, id, input, now);
      }
      if caller != Admin {
        return Err(Unauthorized);
      }
      if id !in employees {
        return Err(NotFound);
      }
      var e := employees[id];
      if Changed(e, input) {
        RecordHistory(e, input, now);
      }
      var merged := Merge(e, input);
      if input.email != "" {
        if e.accountId.None? || e.accountId.value !in accounts {
          return Err(AccountNotLoaded);
        }
        var k := e.accountId.value;
        if accounts[k].email != input.email {
          if EmailInUse(accounts, input.email, k) {
            return Err(ConstraintViolation);
          }
          accounts := accounts[k := accounts[k].(email := input.email)];
        }
      }
      employees := employees[id := merged];
      r := Ok(merged);
    }

    /** `updateEmployee` run inside one transaction: the tables are put back
        as they were when it fails. */
    method UpdateEmployeeInTransaction(caller: Role, id: Id, input: EmployeeInput, now: int)
      returns (r: Result<EmployeeRow, LifecycleError>)
      modifies this
      ensures (Snapshot(), r) == UpdateInTransaction(old(Snapshot()), caller, id, input, now)
      ensures old(Consistent(Snapshot())) && old(StartedBefore(histories, now)) && IdsNonEmpty(input) ==> Consistent(Snapshot())
    {
      var employees0, accounts0, histories0 := employees, accounts, histories;
      r := UpdateEmployee(caller, id, input, now);
      if r.Err? {
        employees, accounts, histories := employees0, accounts0, histories0;
      }
    }

    /** Closes the latest open history row of `e` and appends the row that
        opens its new placement. */
    method RecordHistory(e: EmployeeRow, input: EmployeeInput, now: int)
      modifies this
      ensures histories == RecordChange(old(histories), e, input, now)
      ensures employees == old(employees) && accounts == old(accounts)
    {
      var last := Latest(histories, e.id);
      if last.Some? && histories[last.value].endDate.None? {
        histories := histories[last.value := histories[last.value].(endDate := Some(now))];
      }
      histories := histories + [OpenedRow(e, input, now)];
    }
  }
}

/** The caller's ability: the rules `CaslAbilityFactory.create` registers for
    an account, and the CASL matching that `ability.can` performs on them.

    Subject classes are explicit tags instead of constructors: `EmployeeModel`
    (the GraphQL employee record), `EmployeeInput` (a proposed change) and
    `EmployeeEntity` (a row as the repository returns it). */
module Ability {
  import opened Wrappers
  import opened Domain

  datatype Action = Manage | Create | Read | Update | Delete

  datatype SubjectClass = EmployeeModel | EmployeeInput | EmployeeEntity

  /** What a rule names as its subject: one class, or the sentinel `'all'`. */
  datatype SubjectType = Class(cls: SubjectClass) | All

  datatype Field = IdField | DepartmentIdField | PositionIdField

  /** One conjunct of a rule's condition object: `{ f: v }` or `{ f: { $in: vs } }`. */
  datatype FieldTest = Equals(field: Field, value: string) | In(field: Field, values: seq<string>)

  datatype Rule = Rule(action: Action, subject: SubjectType, conditions: Option<seq<FieldTest>>)

  type Ability = seq<Rule>

  /** What `can` is asked about: a subject type (`'all'`, a class) or an instance
      of a class carrying the fields it has. */
  datatype Subject = OfType(t: SubjectType) | Instance(cls: SubjectClass, fields: map<Field, string>)

  function TypeOf(s: Subject): SubjectType {
    match s
    case OfType(t) => t
    case Instance(c, _) => Class(c)
  }

  /** An absent field fails every test. */
  predicate Holds(t: FieldTest, fields: map<Field, string>) {
    t.field in fields &&
    match t
    case Equals(_, v) => fields[t.field] == v
    case In(_, vs) => fields[t.field] in vs
  }

  predicate SatisfiesAll(tests: seq<FieldTest>, fields: map<Field, string>) {
    forall t :: t in tests ==> Holds(t, fields)
  }

  /** A rule applies when its action is `manage` or the one asked, its subject
      is `'all'` or the subject's type, and, for an instance, its conditions hold.
      A question about a type ignores conditions, as CASL does. */
  predicate Grants(r: Rule, action: Action, subject: Subject) {
    && (r.action == Manage || r.action == action)
    && (r.subject == All || r.subject == TypeOf(subject))
    && (subject.Instance? && r.conditions.Some? ==> SatisfiesAll(r.conditions.value, subject.fields))
  }

  predicate Can(ability: Ability, action: Action, subject: Subject) {
    exists r :: r in ability && Grants(r, action, subject)
  }

  /** `positions.filter(pos => pos.rankIndex < rank).map(pos => pos.id)`. */
  function AllowedPositionIds(catalog: seq<Position>, rank: int): (ids: seq<Id>)
    ensures forall id :: id in ids <==> exists p :: p in catalog && p.id == id && p.rankIndex < rank
  {
    if catalog == [] then []
    else
      var rest := AllowedPositionIds(catalog[1..], rank);
      assert forall p :: p in catalog <==> p == catalog[0] || p in catalog[1..];
      if catalog[0].rankIndex < rank then [catalog[0].id] + rest else rest
  }

  /** `CaslAbilityFactory.create`: the rules registered for the account, in order. */
  function AbilityFor(principal: Principal, catalog: seq<Position>): (ability: Ability)
    requires LinkedAsRoleRequires(principal)
    ensures |ability| >= 1
  {
    var readAll := [Rule(Read, Class(EmployeeModel), None)];
    match principal.account.role
    case Admin =>
      readAll + [Rule(Manage, All, None)]
    case Manager =>
      var me := principal.employee.value;
      var allowed := AllowedPositionIds(catalog, principal.position.value.rankIndex);
      readAll + [Rule(Update, Class(EmployeeInput),
                      Some([Equals(DepartmentIdField, me.departmentId), In(PositionIdField, allowed)]))]
    case Employee =>
      var me := principal.employee.value;
      readAll + [Rule(Update, Class(EmployeeModel), Some([Equals(IdField, me.id)])),
                 Rule(Update, Class(EmployeeInput),
                      Some([Equals(PositionIdField, me.positionId), Equals(DepartmentIdField, me.departmentId)]))]
  }

  // ---------------------------------------------------------------------------
  // Properties of the derived ability

  predicate UniqueIds(catalog: seq<Position>) {
    forall i, j :: 0 <= i < |catalog| && 0 <= j < |catalog| && catalog[i].id == catalog[j].id ==> i == j
  }

  /** The allowed set is exactly the catalog positions ranked strictly below the
      manager: never one of equal or higher rank, never the manager's own. */
  lemma AllowedPositionsStrictlyBelow(catalog: seq<Position>, rank: int, own: Position)
    requires UniqueIds(catalog)
    requires own in catalog && own.rankIndex == rank
    ensures forall p :: p in catalog ==> (p.id in AllowedPositionIds(catalog, rank) <==> p.rankIndex < rank)
    ensures own.id !in AllowedPositionIds(catalog, rank)
  {
    var ids := AllowedPositionIds(catalog, rank);
    forall p | p in catalog && p.id in ids
      ensures p.rankIndex < rank
    {
      var q :| q in catalog && q.id == p.id && q.rankIndex < rank;
      var i :| 0 <= i < |catalog| && catalog[i] == p;
      var j :| 0 <= j < |catalog| && catalog[j] == q;
      assert i == j;
    }
  }

  /** Every caller may read employee records. */
  lemma EveryoneReadsEmployeeRecords(principal: Principal, catalog: seq<Position>, fields: map<Field, string>)
    requires LinkedAsRoleRequires(principal)
    ensures Can(AbilityFor(principal, catalog), Read, Instance(EmployeeModel, fields))
    ensures Can(AbilityFor(principal, catalog), Read, OfType(Class(EmployeeModel)))
  {
    var ability := AbilityFor(principal, catalog);
    assert ability[0] in ability;
  }

  /** An admin may do anything to anything. */
  lemma AdminCanEverything(principal: Principal, catalog: seq<Position>, action: Action, subject: Subject)
    requires LinkedAsRoleRequires(principal) && principal.account.role == Admin
    ensures Can(AbilityFor(principal, catalog), action, subject)
  {
    var ability := AbilityFor(principal, catalog);
    assert ability[1] in ability && Grants(ability[1], action, subject);
  }

  /** A manager may update an input exactly when it keeps the manager's
      department and names a catalog position ranked strictly below theirs. */
  lemma ManagerUpdatesInputIff(principal: Principal, catalog: seq<Position>, fields: map<Field, string>)
    requires LinkedAsRoleRequires(principal) && principal.account.role == Manager
    ensures Can(AbilityFor(principal, catalog), Update, Instance(EmployeeInput, fields)) <==>
      && DepartmentIdField in fields && fields[DepartmentIdField] == principal.employee.value.departmentId
      && PositionIdField in fields
      && exists p :: p in catalog && p.id == fields[PositionIdField] && p.rankIndex < principal.position.value.rankIndex
  {
    var ability := AbilityFor(principal, catalog);
    var subject := Instance(EmployeeInput, fields);
    var conds := ability[1].conditions.value;
    assert conds[0] in conds && conds[1] in conds;
    if Can(ability, Update, subject) {
      var r :| r in ability && Grants(r, Update, subject);
      assert r == ability[1];
    } else {
      assert !Grants(ability[1], Update, subject);
    }
  }

  /** A manager gets no update rule on employee records, whoever they are. */
  lemma ManagerCannotUpdateRecords(principal: Principal, catalog: seq<Position>, fields: map<Field, string>)
    requires LinkedAsRoleRequires(principal) && principal.account.role == Manager
    ensures !Can(AbilityFor(principal, catalog), Update, Instance(EmployeeModel, fields))
  {
  }

  /** An employee may update exactly their own record. */
  lemma EmployeeUpdatesRecordIff(principal: Principal, catalog: seq<Position>, fields: map<Field, string>)
    requires LinkedAsRoleRequires(principal) && principal.account.role == Employee
    ensures Can(AbilityFor(principal, catalog), Update, Instance(EmployeeModel, fields)) <==>
      IdField in fields && fields[IdField] == principal.employee.value.id
  {
    var ability := AbilityFor(principal, catalog);
    var conds := ability[1].conditions.value;
    assert conds[0] in conds;
    assert ability[1] in ability;
  }

  /** An employee may update an input exactly when it keeps their own position
      and department. */
  lemma EmployeeUpdatesInputIff(principal: Principal, catalog: seq<Position>, fields: map<Field, string>)
    requires LinkedAsRoleRequires(principal) && principal.account.role == Employee
    ensures Can(AbilityFor(principal, catalog), Update, Instance(EmployeeInput, fields)) <==>
      && PositionIdField in fields && fields[PositionIdField] == principal.employee.value.positionId
      && DepartmentIdField in fields && fields[DepartmentIdField] == principal.employee.value.departmentId
  {
    var ability := AbilityFor(principal, catalog);
    var conds := ability[2].conditions.value;
    assert conds[0] in conds && conds[1] in conds;
    assert ability[2] in ability;
  }

  /** Only an admin may create, delete or manage anything; and the only action
      any other caller may take on an input is update. */
  lemma NonAdminLimits(principal: Principal, catalog: seq<Position>, action: Action, subject: Subject)
    requires LinkedAsRoleRequires(principal) && principal.account.role != Admin
    ensures action in {Create, Delete, Manage} ==> !Can(AbilityFor(principal, catalog), action, subject)
    ensures TypeOf(subject) == Class(EmployeeInput) && action != Update ==>
      !Can(AbilityFor(principal, catalog), action, subject)
    ensures TypeOf(subject) == Class(EmployeeEntity) ==> !Can(AbilityFor(principal, catalog), action, subject)
  {
  }
}

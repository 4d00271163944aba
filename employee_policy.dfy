/** `EmployeePolicyHandler`: admits an `updateEmployee` mutation when the caller
    may update both the stored employee and the proposed values. */
module EmployeePolicy {
  import opened Wrappers
  import opened Domain
  import opened Ability
  import opened PolicyNode

  /** The flat variables the client sends with `updateEmployee` (those the
      rules look at; the others never reach a condition). */
  datatype Variables = Variables(id: Option<Id>, departmentId: Option<Id>, positionId: Option<Id>)

  /** The fields of a stored row as a subject instance. */
  function RowFields(e: EmployeeRow): (fields: map<Field, string>)
    ensures fields.Keys == {IdField, DepartmentIdField, PositionIdField}
    ensures fields[IdField] == e.id && fields[DepartmentIdField] == e.departmentId
    ensures fields[PositionIdField] == e.positionId
  {
    map[IdField := e.id, DepartmentIdField := e.departmentId, PositionIdField := e.positionId]
  }

  /** `plainToInstance(EmployeeInput, variableValues)`: only the variables
      that were sent become fields. */
  function InputFields(v: Variables): (fields: map<Field, string>)
    ensures IdField in fields <==> v.id.Some?
    ensures DepartmentIdField in fields <==> v.departmentId.Some?
    ensures PositionIdField in fields <==> v.positionId.Some?
    ensures v.id.Some? ==> fields[IdField] == v.id.value
    ensures v.departmentId.Some? ==> fields[DepartmentIdField] == v.departmentId.value
    ensures v.positionId.Some? ==> fields[PositionIdField] == v.positionId.value
  {
    var withId: map<Field, string> := if v.id.Some? then map[IdField := v.id.value] else map[];
    var withDept := if v.departmentId.Some? then withId[DepartmentIdField := v.departmentId.value] else withId;
    if v.positionId.Some? then withDept[PositionIdField := v.positionId.value] else withDept
  }

  /** `handleEmployeeUpdate`, with the loaded row presented to the ability as
      an instance of `rowClass`. */
  function HandleUpdate(ability: Ability, v: Variables, employees: map<Id, EmployeeRow>, rowClass: SubjectClass): HandlerResult
  {
    if !Truthy(v.id) then Returned(false)
    else if v.id.value !in employees then Threw
    else
      Returned(
        && Can(ability, Update, Instance(rowClass, RowFields(employees[v.id.value])))
        && Can(ability, Update, Instance(EmployeeInput, InputFields(v))))
  }

  /** `handle` as written: the repository returns an `EmployeeEntity`, and that
      is the class the ability sees. */
  function HandleAsWritten(employees: map<Id, EmployeeRow>, ability: Ability, context: GqlContext<Variables>): HandlerResult
  {
    var node := GetNode(context);
    if node.isMutation && node.key == "updateEmployee" then
      HandleUpdate(ability, node.variableValues, employees, EmployeeEntity)
    else Returned(false)
  }

  /** `handle` as intended: the loaded row is checked as an employee record
      (`EmployeeModel`), the class the record rules are declared on. */
  function Handle(employees: map<Id, EmployeeRow>, ability: Ability, context: GqlContext<Variables>): (r: HandlerResult)
    ensures r == Threw ==> Truthy(context.info.variableValues.id) && context.info.variableValues.id.value !in employees
    ensures r == Returned(true) ==> context.info.path == PathInfo("updateEmployee", "Mutation")
  {
    var node := GetNode(context);
    if node.isMutation && node.key == "updateEmployee" then
      HandleUpdate(ability, node.variableValues, employees, EmployeeModel)
    else Returned(false)
  }

  predicate IsUpdateEmployee(context: GqlContext<Variables>) {
    context.info.path.typename == "Mutation" && context.info.path.key == "updateEmployee"
  }

  // ---------------------------------------------------------------------------

  /** Anything but the `updateEmployee` mutation is refused. */
  lemma OtherOperationsRefused(employees: map<Id, EmployeeRow>, ability: Ability, context: GqlContext<Variables>)
    requires !IsUpdateEmployee(context)
    ensures Handle(employees, ability, context) == Returned(false)
  {
  }

  /** A missing or empty id is refused without looking at the repository. */
  lemma MissingIdRefusedWithoutLookup(e1: map<Id, EmployeeRow>, e2: map<Id, EmployeeRow>, ability: Ability, context: GqlContext<Variables>)
    requires !Truthy(context.info.variableValues.id)
    ensures Handle(e1, ability, context) == Handle(e2, ability, context) == Returned(false)
  {
  }

  /** An id that names no employee makes the handler fail. */
  lemma UnknownIdFails(employees: map<Id, EmployeeRow>, ability: Ability, context: GqlContext<Variables>)
    requires IsUpdateEmployee(context)
    requires Truthy(context.info.variableValues.id) && context.info.variableValues.id.value !in employees
    ensures Handle(employees, ability, context) == Threw
  {
  }

  /** An admin passes for every existing target. */
  lemma AdminPasses(employees: map<Id, EmployeeRow>, principal: Principal, catalog: seq<Position>, context: GqlContext<Variables>)
    requires LinkedAsRoleRequires(principal) && principal.account.role == Admin && IsUpdateEmployee(context)
    requires Truthy(context.info.variableValues.id) && context.info.variableValues.id.value in employees
    ensures Handle(employees, AbilityFor(principal, catalog), context) == Returned(true)
  {
    var v := context.info.variableValues;
    AdminCanEverything(principal, catalog, Update, Instance(EmployeeModel, RowFields(employees[v.id.value])));
    AdminCanEverything(principal, catalog, Update, Instance(EmployeeInput, InputFields(v)));
  }

  /** An employee passes exactly when updating their own record without
      changing their position or department. */
  lemma EmployeePassesIff(employees: map<Id, EmployeeRow>, principal: Principal, catalog: seq<Position>, context: GqlContext<Variables>)
    requires LinkedAsRoleRequires(principal) && principal.account.role == Employee
    requires IsUpdateEmployee(context)
    requires Truthy(context.info.variableValues.id) && context.info.variableValues.id.value in employees
    ensures var v := context.info.variableValues; var me := principal.employee.value;
      Handle(employees, AbilityFor(principal, catalog), context) == Returned(
        && employees[v.id.value].id == me.id
        && v.positionId == Some(me.positionId)
        && v.departmentId == Some(me.departmentId))
  {
    var v := context.info.variableValues;
    EmployeeUpdatesRecordIff(principal, catalog, RowFields(employees[v.id.value]));
    EmployeeUpdatesInputIff(principal, catalog, InputFields(v));
  }

  /** A manager never passes: no rule lets a manager update a record. */
  lemma ManagerNeverPasses(employees: map<Id, EmployeeRow>, principal: Principal, catalog: seq<Position>, context: GqlContext<Variables>)
    requires LinkedAsRoleRequires(principal) && principal.account.role == Manager
    ensures Handle(employees, AbilityFor(principal, catalog), context) != Returned(true)
  {
    var v := context.info.variableValues;
    if IsUpdateEmployee(context) && Truthy(v.id) && v.id.value in employees {
      ManagerCannotUpdateRecords(principal, catalog, RowFields(employees[v.id.value]));
    }
  }

  /** As written, no caller but an admin ever passes, not even an employee
      editing their own record with their own position and department. */
  lemma AsWrittenRefusesAllButAdmins(employees: map<Id, EmployeeRow>, principal: Principal, catalog: seq<Position>, context: GqlContext<Variables>)
    requires LinkedAsRoleRequires(principal) && principal.account.role != Admin
    ensures HandleAsWritten(employees, AbilityFor(principal, catalog), context) != Returned(true)
  {
    var v := context.info.variableValues;
    if IsUpdateEmployee(context) && Truthy(v.id) && v.id.value in employees {
      NonAdminLimits(principal, catalog, Update, Instance(EmployeeEntity, RowFields(employees[v.id.value])));
    }
  }

  /** The employee the corrected handler admits is refused as written. */
  lemma AsWrittenRefusesOwnRecord(employees: map<Id, EmployeeRow>, principal: Principal, catalog: seq<Position>, context: GqlContext<Variables>)
    requires LinkedAsRoleRequires(principal) && principal.account.role == Employee
    requires IsUpdateEmployee(context)
    requires var v := context.info.variableValues; var me := principal.employee.value;
      && v.id == Some(me.id) && me.id != "" && employees == map[me.id := me]
      && v.positionId == Some(me.positionId) && v.departmentId == Some(me.departmentId)
    ensures Handle(employees, AbilityFor(principal, catalog), context) == Returned(true)
    ensures HandleAsWritten(employees, AbilityFor(principal, catalog), context) == Returned(false)
  {
    EmployeePassesIff(employees, principal, catalog, context);
    AsWrittenRefusesAllButAdmins(employees, principal, catalog, context);
  }
}

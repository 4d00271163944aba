/** The persisted entities the core reads and writes, as values. Timestamps are
    integers (milliseconds since the epoch); identifiers are strings (uuids). */
module Domain {
  import opened Wrappers

  type Id = string

  datatype Role = Admin | Manager | Employee

  /** A row of `positions`; `rankIndex` orders positions by seniority. */
  datatype Position = Position(id: Id, name: string, rankIndex: int)

  /** A row of `accounts`; `email` is a unique column. */
  datatype Account = Account(id: Id, email: string, password: string, role: Role)

  /** A row of `employees`. */
  datatype EmployeeRow = EmployeeRow(
    id: Id,
    name: string,
    dob: int,
    departmentId: Id,
    positionId: Id,
    accountId: Option<Id>,
    reportsToId: Option<Id>,
    createdAt: int)

  /** A row of `employee_histories`; an absent `endDate` marks the open row. */
  datatype HistoryRow = HistoryRow(
    employeeId: Id,
    departmentId: Id,
    positionId: Id,
    startDate: int,
    endDate: Option<int>)

  /** An authenticated account loaded together with its employee and that
      employee's position, as the guards load it. */
  datatype Principal = Principal(account: Account, employee: Option<EmployeeRow>, position: Option<Position>)

  /** JavaScript truthiness of an optional string: present and non-empty. */
  predicate Truthy(s: Option<string>) {
    s.Some? && s.value != ""
  }

  /** What the ability factory dereferences with `!`: a manager has an employee
      with a loaded position, an employee has an employee; a loaded position is
      the employee's own. */
  predicate LinkedAsRoleRequires(p: Principal) {
    && (p.position.Some? && p.employee.Some? ==> p.position.value.id == p.employee.value.positionId)
    && (p.account.role == Manager ==> p.employee.Some? && p.position.Some?)
    && (p.account.role == Employee ==> p.employee.Some?)
  }
}

/** The `employee_histories` table as `updateEmployee` uses it: finding an
    employee's latest row, closing it, and the invariant that ties the open
    row to the employee's current assignment. */
module HistoryTable {
  import opened Wrappers
  import opened Domain

  /** `findOne({ where: { employeeId }, order: { startDate: 'DESC' } })`: the
      row of the employee with the greatest start date, the first in table
      order among equal ones; none when the employee has no row. */
  function Latest(hs: seq<HistoryRow>, id: Id): (r: Option<nat>)
    ensures r.None? <==> forall i :: 0 <= i < |hs| ==> hs[i].employeeId != id
    ensures r.Some? ==> r.value < |hs| && hs[r.value].employeeId == id
    ensures r.Some? ==> forall i :: 0 <= i < |hs| && hs[i].employeeId == id ==> hs[i].startDate <= hs[r.value].startDate
    ensures r.Some? ==> forall i :: 0 <= i < r.value && hs[i].employeeId == id ==> hs[i].startDate < hs[r.value].startDate
  {
    if hs == [] then None
    else
      var n := |hs| - 1;
      var earlier := Latest(hs[..n], id);
      if hs[n].employeeId != id then earlier
      else if earlier.Some? && hs[earlier.value].startDate >= hs[n].startDate then earlier
      else Some(n)
  }

  /** The three properties above single out one row. */
  lemma LatestIsUnique(hs: seq<HistoryRow>, id: Id, k: nat)
    requires k < |hs| && hs[k].employeeId == id
    requires forall i :: 0 <= i < |hs| && hs[i].employeeId == id ==> hs[i].startDate <= hs[k].startDate
    requires forall i :: 0 <= i < k && hs[i].employeeId == id ==> hs[i].startDate < hs[k].startDate
    ensures Latest(hs, id) == Some(k)
  {
    var m := Latest(hs, id).value;
    assert !(m < k) && !(k < m);
  }

  /** Rows of an employee are all that `Latest` looks at. */
  predicate SameRowsFor(hs: seq<HistoryRow>, hs': seq<HistoryRow>, id: Id) {
    && |hs| <= |hs'|
    && (forall i :: 0 <= i < |hs| ==> (hs'[i].employeeId == id <==> hs[i].employeeId == id))
    && (forall i :: 0 <= i < |hs| && hs[i].employeeId == id ==> hs'[i].startDate == hs[i].startDate)
    && (forall i :: |hs| <= i < |hs'| ==> hs'[i].employeeId != id)
  }

  lemma LatestDependsOnlyOnOwnRows(hs: seq<HistoryRow>, hs': seq<HistoryRow>, id: Id)
    requires SameRowsFor(hs, hs', id)
    ensures Latest(hs', id) == Latest(hs, id)
  {
    if Latest(hs, id).Some? {
      LatestIsUnique(hs', id, Latest(hs, id).value);
    }
  }

  /** Sets `endDate = now` on the employee's latest row when it has none. */
  function CloseLatest(hs: seq<HistoryRow>, id: Id, now: int): (r: seq<HistoryRow>)
    ensures |r| == |hs|
    ensures forall i :: 0 <= i < |hs| ==> r[i] == hs[i] || (Latest(hs, id) == Some(i) && hs[i].endDate.None? && r[i] == hs[i].(endDate := Some(now)))
    ensures Latest(hs, id).Some? ==> r[Latest(hs, id).value].endDate.Some?
  {
    match Latest(hs, id)
    case None => hs
    case Some(k) => if hs[k].endDate.None? then hs[k := hs[k].(endDate := Some(now))] else hs
  }

  predicate IsOpenRowOf(row: HistoryRow, id: Id) {
    row.employeeId == id && row.endDate.None?
  }

  /** Indices of the employee's open rows. */
  function OpenRows(hs: seq<HistoryRow>, id: Id): set<nat> {
    set i: nat | i < |hs| && IsOpenRowOf(hs[i], id)
  }

  /** The history invariant for one employee: each open row of the employee is
      the latest row, and it records the employee's current department and
      position. So there is at most one open row. */
  predicate Tracked(hs: seq<HistoryRow>, e: EmployeeRow) {
    forall i :: 0 <= i < |hs| && IsOpenRowOf(hs[i], e.id) ==>
      && Latest(hs, e.id) == Some(i)
      && hs[i].departmentId == e.departmentId
      && hs[i].positionId == e.positionId
  }

  lemma TrackedHasAtMostOneOpenRow(hs: seq<HistoryRow>, e: EmployeeRow)
    requires Tracked(hs, e)
    ensures |OpenRows(hs, e.id)| <= 1
  {
    var open := OpenRows(hs, e.id);
    if open != {} {
      var k := Latest(hs, e.id).value;
      assert open == {k};
    }
  }

  /** Every row started strictly before `now`: the clock has moved on. */
  predicate StartedBefore(hs: seq<HistoryRow>, now: int) {
    forall i :: 0 <= i < |hs| ==> hs[i].startDate < now
  }

  /** Closing the latest row and appending `row` leaves the rows of every other
      employee, and so what is tracked for them, as it was. */
  lemma {:induction false} OthersStayTracked(hs: seq<HistoryRow>, id: Id, now: int, row: HistoryRow, f: EmployeeRow)
    requires row.employeeId == id && f.id != id
    requires Tracked(hs, f)
    ensures Tracked(CloseLatest(hs, id, now) + [row], f)
  {
    var hs' := CloseLatest(hs, id, now) + [row];
    assert SameRowsFor(hs, hs', f.id);
    LatestDependsOnlyOnOwnRows(hs, hs', f.id);
    forall i | 0 <= i < |hs'| && IsOpenRowOf(hs'[i], f.id)
      ensures Latest(hs', f.id) == Some(i)
      ensures hs'[i].departmentId == f.departmentId && hs'[i].positionId == f.positionId
    {
      assert i < |hs|;
      assert hs'[i] == hs[i];
    }
  }

  /** Closing the latest row and appending an open row started now: if only the
      latest row could be open before, the appended row is afterwards the only
      open row of the employee and the latest one. */
  lemma {:induction false} AppendedRowIsTheOpenOne(hs: seq<HistoryRow>, id: Id, now: int, row: HistoryRow)
    requires StartedBefore(hs, now)
    requires forall i :: 0 <= i < |hs| && IsOpenRowOf(hs[i], id) ==> Latest(hs, id) == Some(i)
    requires row.employeeId == id && row.startDate == now && row.endDate.None?
    ensures var hs' := CloseLatest(hs, id, now) + [row];
      && Latest(hs', id) == Some(|hs|)
      && OpenRows(hs', id) == {|hs|}
  {
    var hs' := CloseLatest(hs, id, now) + [row];
    LatestIsUnique(hs', id, |hs|);
    forall i | 0 <= i < |hs| ensures !IsOpenRowOf(hs'[i], id) {
      if IsOpenRowOf(hs[i], id) {
        assert Latest(hs, id) == Some(i);
      }
    }
    assert |hs| in OpenRows(hs', id);
  }
}

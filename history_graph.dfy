/** The web client's history timeline: the entries ordered most recent first
    and the row each one is displayed as. Dates are integer timestamps. */
module HistoryGraph {
  import opened Wrappers
  import opened Domain
  import opened Sorting

  /** A history entry as the client receives it: every field may be missing. */
  datatype HistoryEntry = HistoryEntry(
    id: Option<Id>,
    startDate: Option<int>,
    endDate: Option<int>,
    positionName: Option<string>,
    departmentName: Option<string>)

  /** What one list item shows. */
  datatype TimelineRow = TimelineRow(
    caption: string,
    position: string,
    department: string,
    ongoing: bool,
    connector: bool)

  /** The comparator's key: the start time, or 0 without a start date. */
  function StartTime(h: HistoryEntry): int {
    if h.startDate.Some? then h.startDate.value else 0
  }

  function LaterFirst(): (HistoryEntry, HistoryEntry) -> bool {
    (a: HistoryEntry, b: HistoryEntry) => StartTime(a) >= StartTime(b)
  }

  /** `sortedHistories`: a sorted copy; the given list is a value and stays
      as it was. */
  function SortedHistories(histories: seq<HistoryEntry>): (r: seq<HistoryEntry>)
    ensures multiset(r) == multiset(histories)
    ensures forall i, j :: 0 <= i < j < |r| ==> StartTime(r[i]) >= StartTime(r[j])
  {
    var r := InsertionSort(histories, LaterFirst());
    NonIncreasing(r);
    r
  }

  /** Neighbours in order give every pair in order. */
  lemma {:induction false} NonIncreasing(s: seq<HistoryEntry>)
    requires Sorted(s, LaterFirst())
    ensures forall i, j :: 0 <= i < j < |s| ==> StartTime(s[i]) >= StartTime(s[j])
  {
    if |s| > 1 {
      NonIncreasing(s[1..]);
      forall i, j | 0 <= i < j < |s| ensures StartTime(s[i]) >= StartTime(s[j]) {
        if i > 0 {
          assert s[i] == s[1..][i - 1] && s[j] == s[1..][j - 1];
        } else if j > 1 {
          assert s[j] == s[1..][j - 1] && s[1] == s[1..][0];
          assert LaterFirst()(s[0], s[1]);
        } else {
          assert LaterFirst()(s[0], s[1]);
        }
      }
    }
  }

  /** `isOngoing`: the entry has no end date. */
  predicate IsOngoing(h: HistoryEntry) {
    h.endDate.None?
  }

  /** JavaScript's `s || fallback` on an optional string. */
  function OrElse(s: Option<string>, fallback: string): (r: string)
    ensures Truthy(s) ==> r == s.value
    ensures !Truthy(s) ==> r == fallback
  {
    if Truthy(s) then s.value else fallback
  }

  function RowOf(h: HistoryEntry, last: bool): (row: TimelineRow)
    ensures row.ongoing <==> IsOngoing(h)
    ensures row.caption == if IsOngoing(h) then "Currently" else "Worked as"
    ensures row.connector <==> !last
  {
    var ongoing := IsOngoing(h);
    TimelineRow(if ongoing then "Currently" else "Worked as",
                OrElse(h.positionName, "Unknown Position"),
                OrElse(h.departmentName, "Unknown Department"),
                ongoing,
                !last)
  }

  /** The rows of the timeline: one per entry, most recent first, each
      labelled by whether it is ongoing, with a connector below all but the
      last. */
  function Timeline(histories: seq<HistoryEntry>): (rows: seq<TimelineRow>)
    ensures |rows| == |histories|
    ensures forall i :: 0 <= i < |rows| ==> (rows[i].connector <==> i != |rows| - 1)
    ensures forall i :: 0 <= i < |rows| ==> rows[i] == RowOf(SortedHistories(histories)[i], i == |rows| - 1)
  {
    var sorted := SortedHistories(histories);
    assert |multiset(sorted)| == |multiset(histories)|;
    seq(|sorted|, i requires 0 <= i < |sorted| => RowOf(sorted[i], i == |sorted| - 1))
  }

  /** The first row shows an entry with the latest start time. */
  lemma MostRecentFirst(histories: seq<HistoryEntry>)
    requires histories != []
    ensures var sorted := SortedHistories(histories);
      sorted != [] && forall h :: h in histories ==> StartTime(h) <= StartTime(sorted[0])
  {
    var sorted := SortedHistories(histories);
    assert |multiset(sorted)| == |multiset(histories)|;
    forall h | h in histories ensures StartTime(h) <= StartTime(sorted[0]) {
      assert h in multiset(sorted);
      var k :| 0 <= k < |sorted| && sorted[k] == h;
    }
  }
}

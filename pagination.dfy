/** The list pager of the web client: the window of page buttons with
    ellipses, the disabled flags of Prev and Next, and the page each click
    requests (`None` when it requests nothing). */
module Pagination {
  import opened Wrappers

  datatype PageItem = Page(n: int) | Ellipsis

  const MaxVisible: int := 7

  /** Every number exceeds the numbers before it. */
  predicate Increasing(p: seq<PageItem>) {
    forall i, j :: 0 <= i < j < |p| && p[i].Page? && p[j].Page? ==> p[i].n < p[j].n
  }

  /** Neighbouring numbers are consecutive. */
  predicate Consecutive(p: seq<PageItem>) {
    forall i :: 0 < i < |p| && p[i - 1].Page? && p[i].Page? ==> p[i].n == p[i - 1].n + 1
  }

  /** An ellipsis stands between two numbers, never first, last or next to
      another ellipsis, and the numbers around it skip at least one page. */
  predicate EllipsesMarkGaps(p: seq<PageItem>) {
    forall i :: 0 <= i < |p| && p[i].Ellipsis? ==>
      0 < i < |p| - 1 && p[i - 1].Page? && p[i + 1].Page? && p[i - 1].n + 1 < p[i + 1].n
  }

  /** Every number lies between `lo` and `hi`. */
  predicate NumbersWithin(p: seq<PageItem>, lo: int, hi: int) {
    forall k :: 0 <= k < |p| && p[k].Page? ==> lo <= p[k].n <= hi
  }

  /** The last number of a list, if it has one. */
  function LastNumber(p: seq<PageItem>): Option<int> {
    if p == [] then None
    else if p[|p| - 1].Page? then Some(p[|p| - 1].n)
    else LastNumber(p[..|p| - 1])
  }

  /** What may be appended to `p`: an ellipsis only after a number; a number
      right after the last number, or past it by more than one after an
      ellipsis. */
  predicate MayFollow(p: seq<PageItem>, x: PageItem) {
    match x
    case Ellipsis => p != [] && p[|p| - 1].Page?
    case Page(n) =>
      p == [] ||
      (LastNumber(p).Some? &&
       (if p[|p| - 1].Page? then n == LastNumber(p).value + 1 else n > LastNumber(p).value + 1))
  }

  /** A list built by appending only what may follow. */
  predicate Laid(p: seq<PageItem>) {
    p == [] || (Laid(p[..|p| - 1]) && MayFollow(p[..|p| - 1], p[|p| - 1]))
  }

  function NumberCount(p: seq<PageItem>): nat {
    if p == [] then 0 else NumberCount(p[..|p| - 1]) + if p[|p| - 1].Page? then 1 else 0
  }

  /** One push, as the definitions above see it. */
  lemma Push(p: seq<PageItem>, x: PageItem)
    ensures (p + [x])[..|p|] == p
    ensures Laid(p + [x]) <==> Laid(p) && MayFollow(p, x)
    ensures NumberCount(p + [x]) == NumberCount(p) + if x.Page? then 1 else 0
    ensures LastNumber(p + [x]) == if x.Page? then Some(x.n) else LastNumber(p)
  {
    assert (p + [x])[..|p|] == p;
  }

  /** In a laid-out list the last number is the largest, and an ellipsis at
      the end follows the last number. */
  lemma {:induction false} LaidBounded(p: seq<PageItem>)
    requires Laid(p)
    ensures forall k :: 0 <= k < |p| && p[k].Page? ==> LastNumber(p).Some? && p[k].n <= LastNumber(p).value
    ensures p != [] && p[|p| - 1].Ellipsis? ==> |p| >= 2 && p[|p| - 2].Page? && LastNumber(p) == Some(p[|p| - 2].n)
  {
    if p != [] {
      var q := p[..|p| - 1];
      LaidBounded(q);
      forall k | 0 <= k < |p| && p[k].Page? ensures LastNumber(p).Some? && p[k].n <= LastNumber(p).value {
        if k < |q| {
          assert p[k] == q[k];
        }
      }
    }
  }

  lemma {:induction false} LaidIncreasing(p: seq<PageItem>)
    requires Laid(p)
    ensures Increasing(p)
  {
    if p != [] {
      var q := p[..|p| - 1];
      LaidIncreasing(q);
      LaidBounded(q);
      forall i, j | 0 <= i < j < |p| && p[i].Page? && p[j].Page? ensures p[i].n < p[j].n {
        assert p[i] == q[i];
        if j < |q| {
          assert p[j] == q[j];
        }
      }
    }
  }

  lemma {:induction false} LaidConsecutive(p: seq<PageItem>)
    requires Laid(p)
    ensures Consecutive(p)
  {
    if p != [] {
      var q := p[..|p| - 1];
      LaidConsecutive(q);
      forall i | 0 < i < |p| && p[i - 1].Page? && p[i].Page? ensures p[i].n == p[i - 1].n + 1 {
        assert p[i - 1] == q[i - 1];
        if i < |q| {
          assert p[i] == q[i];
        }
      }
    }
  }

  /** Every ellipsis of a laid-out list follows a number, and the number after
      it, if any, skips at least one page. */
  lemma {:induction false} LaidSpaced(p: seq<PageItem>)
    requires Laid(p)
    ensures forall i :: 0 <= i < |p| && p[i].Ellipsis? ==>
      0 < i && p[i - 1].Page? && (i + 1 < |p| ==> p[i + 1].Page? && p[i - 1].n + 1 < p[i + 1].n)
  {
    if p != [] {
      var q := p[..|p| - 1];
      LaidSpaced(q);
      LaidBounded(q);
      forall i | 0 <= i < |p| && p[i].Ellipsis?
        ensures 0 < i && p[i - 1].Page? && (i + 1 < |p| ==> p[i + 1].Page? && p[i - 1].n + 1 < p[i + 1].n)
      {
        if i < |q| {
          assert p[i] == q[i] && p[i - 1] == q[i - 1];
          if i + 1 < |q| {
            assert p[i + 1] == q[i + 1];
          }
        }
      }
    }
  }

  /** A laid-out list that ends in a number meets the layout promised for the
      pager. */
  lemma LaidLayout(p: seq<PageItem>)
    requires Laid(p) && p != [] && p[|p| - 1].Page?
    ensures p[0].Page? && Increasing(p) && Consecutive(p) && EllipsesMarkGaps(p)
    ensures NumbersWithin(p, p[0].n, p[|p| - 1].n)
  {
    LaidIncreasing(p);
    LaidConsecutive(p);
    LaidSpaced(p);
    LaidBounded(p);
    LaidFirst(p);
  }

  /** A laid-out list starts with a number. */
  lemma LaidFirst(p: seq<PageItem>)
    requires Laid(p) && p != []
    ensures p[0].Page?
  {
    LaidSpaced(p);
  }

  /** The numbers `a` to `b` in order. */
  function Run(a: int, b: int): (r: seq<PageItem>)
    ensures |r| == if b < a then 0 else b - a + 1
    ensures forall k :: 0 <= k < |r| ==> r[k] == Page(a + k)
    decreases if b < a then 0 else b - a + 1
  {
    if b < a then [] else Run(a, b - 1) + [Page(b)]
  }

  /** Appending a run of numbers that may follow keeps the list laid out. */
  lemma {:induction false} LaidRun(h: seq<PageItem>, a: int, b: int)
    requires Laid(h) && (a <= b ==> MayFollow(h, Page(a)))
    ensures Laid(h + Run(a, b))
    ensures NumberCount(h + Run(a, b)) == NumberCount(h) + |Run(a, b)|
    ensures LastNumber(h + Run(a, b)) == if a <= b then Some(b) else LastNumber(h)
    decreases if b < a then 0 else b - a + 1
  {
    if b < a {
      assert h + Run(a, b) == h;
    } else {
      LaidRun(h, a, b - 1);
      var g := h + Run(a, b - 1);
      assert h + Run(a, b) == g + [Page(b)];
      if a <= b - 1 {
        assert g[|g| - 1] == Page(b - 1);
      } else {
        assert g == h;
      }
      Push(g, Page(b));
    }
  }

  /** The list `getPageNumbers` assembles for more than seven pages. */
  function Windowed(start: int, end: int, totalPages: int): seq<PageItem> {
    [Page(1)] + (if start > 2 then [Ellipsis] else []) + Run(start, end)
      + (if end < totalPages - 1 then [Ellipsis] else []) + [Page(totalPages)]
  }

  /** The run 1..totalPages is laid out: every rule of the layout holds. */
  lemma RunLayout(totalPages: int)
    requires totalPages >= 1
    ensures var p := Run(1, totalPages);
      Increasing(p) && Consecutive(p) && EllipsesMarkGaps(p) && NumbersWithin(p, 1, totalPages)
  {
    RunIsLaid(totalPages);
    LaidLayout(Run(1, totalPages));
  }

  /** The run 1..totalPages as a whole list is laid out. */
  lemma RunIsLaid(totalPages: int)
    requires totalPages >= 1
    ensures Laid(Run(1, totalPages))
  {
    LaidRun([], 1, totalPages);
    assert [] + Run(1, totalPages) == Run(1, totalPages);
  }

  /** Every page of 1..totalPages appears in the run. */
  lemma RunHasEveryPage(currentPage: int, totalPages: int)
    requires 1 <= currentPage <= totalPages
    ensures Page(currentPage) in Run(1, totalPages)
  {
    assert Run(1, totalPages)[currentPage - 1] == Page(currentPage);
  }

  /** The assembled list is built by appending only what may follow. */
  lemma WindowedLaid(start: int, end: int, totalPages: int)
    requires 2 <= start && end == start + 4 && end <= totalPages - 1
    ensures var p := Windowed(start, end, totalPages);
      Laid(p) && NumberCount(p) == MaxVisible && |p| >= 2 && p[|p| - 1] == Page(totalPages)
  {
    var h2 := [Page(1)] + (if start > 2 then [Ellipsis] else []);
    WindowHead(start);
    LaidRun(h2, start, end);
    var h3 := h2 + Run(start, end);
    assert Laid(h3) && NumberCount(h3) == 6 && h3[|h3| - 1] == Page(end);
    assert LastNumber(h3) == Some(end);
    WindowTail(h3, end, totalPages);
    assert h3 + (if end < totalPages - 1 then [Ellipsis] else []) + [Page(totalPages)] == Windowed(start, end, totalPages);
  }

  /** The first page and the optional left ellipsis. */
  lemma WindowHead(start: int)
    requires start >= 2
    ensures var h := [Page(1)] + (if start > 2 then [Ellipsis] else []);
      Laid(h) && NumberCount(h) == 1 && LastNumber(h) == Some(1) && (start > 2 <==> h[|h| - 1].Ellipsis?)
      && MayFollow(h, Page(start))
  {
    var h1 := [Page(1)];
    Push([], Page(1));
    assert [] + [Page(1)] == h1;
    if start > 2 {
      Push(h1, Ellipsis);
    } else {
      assert h1 + [] == h1;
    }
  }

  /** The optional right ellipsis and the last page. */
  lemma WindowTail(h: seq<PageItem>, end: int, totalPages: int)
    requires Laid(h) && h != [] && h[|h| - 1] == Page(end) && LastNumber(h) == Some(end) && end <= totalPages - 1
    ensures var p := h + (if end < totalPages - 1 then [Ellipsis] else []) + [Page(totalPages)];
      Laid(p) && NumberCount(p) == NumberCount(h) + 1 && |p| >= 2 && p[|p| - 1] == Page(totalPages)
  {
    var h4 := h + (if end < totalPages - 1 then [Ellipsis] else []);
    if end < totalPages - 1 {
      Push(h, Ellipsis);
    } else {
      assert h4 == h;
    }
    Push(h4, Page(totalPages));
  }

  /** The assembled list shows every page of the window. */
  lemma WindowedShowsWindow(start: int, end: int, totalPages: int)
    ensures forall x :: start <= x <= end ==> Page(x) in Windowed(start, end, totalPages)
  {
    var h2 := [Page(1)] + (if start > 2 then [Ellipsis] else []);
    var p := Windowed(start, end, totalPages);
    forall x | start <= x <= end ensures Page(x) in p {
      assert p[|h2| + x - start] == Run(start, end)[x - start];
    }
  }

  /** A window of five numbers strictly between the first and the last page
      gives the promised layout, with seven numbers. */
  lemma WindowedLayout(start: int, end: int, totalPages: int)
    requires 2 <= start && end == start + 4 && end <= totalPages - 1
    ensures var p := Windowed(start, end, totalPages);
      && |p| >= 2 && p[0] == Page(1) && p[|p| - 1] == Page(totalPages) && NumberCount(p) == MaxVisible
      && Increasing(p) && Consecutive(p) && EllipsesMarkGaps(p)
      && NumbersWithin(p, 1, totalPages)
      && (forall x :: start <= x <= end ==> Page(x) in p)
  {
    WindowedLaid(start, end, totalPages);
    WindowedShowsWindow(start, end, totalPages);
    LaidLayout(Windowed(start, end, totalPages));
  }

  /** The `for` loops of `getPageNumbers`: pushes the numbers `from` to `to`. */
  method PushNumbers(pages: seq<PageItem>, from: int, to: int) returns (r: seq<PageItem>)
    ensures r == pages + Run(from, to)
  {
    r := pages;
    var i := from;
    while i <= to
      invariant from <= i <= (if from <= to then to + 1 else from)
      invariant r == pages + Run(from, i - 1)
    {
      r := r + [Page(i)];
      i := i + 1;
    }
  }

  /** `getPageNumbers`. */
  method GetPageNumbers(currentPage: int, totalPages: int) returns (pages: seq<PageItem>)
    ensures totalPages <= MaxVisible ==>
      |pages| == (if totalPages > 0 then totalPages else 0) && forall k :: 0 <= k < |pages| ==> pages[k] == Page(k + 1)
    ensures totalPages > MaxVisible ==>
      |pages| >= 2 && pages[0] == Page(1) && pages[|pages| - 1] == Page(totalPages) && NumberCount(pages) == MaxVisible
    ensures Increasing(pages) && Consecutive(pages) && EllipsesMarkGaps(pages)
    ensures NumbersWithin(pages, 1, totalPages)
    ensures 1 <= currentPage <= totalPages ==> Page(currentPage) in pages
  {
    pages := [];
    if totalPages <= MaxVisible {
      pages := PushNumbers(pages, 1, totalPages);
      assert pages == Run(1, totalPages);
      if totalPages >= 1 {
        RunLayout(totalPages);
      }
      if 1 <= currentPage <= totalPages {
        RunHasEveryPage(currentPage, totalPages);
      }
    } else {
      pages := WindowedPageNumbers(currentPage, totalPages);
    }
  }

  /** The branch of `getPageNumbers` for more than seven pages: the first
      page, a window of five around the current page, the last page, and an
      ellipsis wherever pages are skipped. */
  method WindowedPageNumbers(currentPage: int, totalPages: int) returns (pages: seq<PageItem>)
    requires totalPages > MaxVisible
    ensures |pages| >= 2 && pages[0] == Page(1) && pages[|pages| - 1] == Page(totalPages) && NumberCount(pages) == MaxVisible
    ensures Increasing(pages) && Consecutive(pages) && EllipsesMarkGaps(pages)
    ensures NumbersWithin(pages, 1, totalPages)
    ensures 1 <= currentPage <= totalPages ==> Page(currentPage) in pages
  {
    var start, end := WindowBounds(currentPage, totalPages);
    pages := AssembleWindow(start, end, totalPages);
    WindowedLayout(start, end, totalPages);
  }

  /** The window of five middle pages: centred on the current page, pushed
      right when the current page is near the start and left when it is near
      the end. */
  method WindowBounds(currentPage: int, totalPages: int) returns (start: int, end: int)
    requires totalPages > MaxVisible
    ensures 2 <= start && end == start + 4 && end <= totalPages - 1
    ensures 1 <= currentPage <= totalPages ==> currentPage == 1 || currentPage == totalPages || start <= currentPage <= end
  {
    var middleCount := MaxVisible - 2;
    var halfMiddle := middleCount / 2;
    start := if 2 > currentPage - halfMiddle then 2 else currentPage - halfMiddle;
    end := if totalPages - 1 < currentPage + halfMiddle then totalPages - 1 else currentPage + halfMiddle;
    if currentPage <= halfMiddle + 1 {
      start := 2;
      end := if totalPages - 1 < MaxVisible - 1 then totalPages - 1 else MaxVisible - 1;
    } else if currentPage >= totalPages - halfMiddle {
      start := if 2 > totalPages - MaxVisible + 2 then 2 else totalPages - MaxVisible + 2;
      end := totalPages - 1;
    }
  }

  /** The pushes of that branch, after the first page: an ellipsis when the
      window starts past page 2, the window, an ellipsis when it ends before
      the second-to-last page, and the last page. */
  method AssembleWindow(start: int, end: int, totalPages: int) returns (pages: seq<PageItem>)
    ensures pages == Windowed(start, end, totalPages)
  {
    pages := [Page(1)];
    if start > 2 {
      pages := pages + [Ellipsis];
    }
    pages := PushNumbers(pages, start, end);
    if end < totalPages - 1 {
      pages := pages + [Ellipsis];
    }
    pages := pages + [Page(totalPages)];
  }

  predicate IsPrevDisabled(currentPage: int) {
    currentPage <= 1
  }

  predicate IsNextDisabled(currentPage: int, totalPages: int) {
    currentPage >= totalPages
  }

  /** `handlePrev`: the previous page, unless Prev is disabled. */
  function HandlePrev(currentPage: int): (r: Option<int>)
    ensures r.Some? <==> currentPage > 1
    ensures r.Some? ==> r.value == currentPage - 1
  {
    if !IsPrevDisabled(currentPage) then Some(currentPage - 1) else None
  }

  /** `handleNext`: the next page, unless Next is disabled. */
  function HandleNext(currentPage: int, totalPages: int): (r: Option<int>)
    ensures r.Some? <==> currentPage < totalPages
    ensures r.Some? ==> r.value == currentPage + 1
  {
    if !IsNextDisabled(currentPage, totalPages) then Some(currentPage + 1) else None
  }

  /** `handlePageClick`: any page but the current one. */
  function HandlePageClick(page: int, currentPage: int): (r: Option<int>)
    ensures r.Some? <==> page != currentPage
    ensures r.Some? ==> r.value == page
  {
    if page != currentPage then Some(page) else None
  }

  /** From a page in range, Prev and Next only request pages in range. */
  lemma NavigationStaysInRange(currentPage: int, totalPages: int)
    requires 1 <= currentPage <= totalPages
    ensures HandlePrev(currentPage).Some? ==> 1 <= HandlePrev(currentPage).value <= totalPages
    ensures HandleNext(currentPage, totalPages).Some? ==> 1 <= HandleNext(currentPage, totalPages).value <= totalPages
  {
  }
}

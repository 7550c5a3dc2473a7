/**
 * Document geometry: the normalised vertical position of an annotation
 * (`positionPercentForAnnotation`) and the page-based reading progress of
 * the `viewState.currentPageIndex.change` handler.
 */
module Geometry {
  import opened Base

  /** `pageInfoForIndex(i)?.height ?? 0`: an unknown height counts as zero. */
  function HeightAt(heights: seq<Option<real>>, i: nat): real
  {
    if i < |heights| && heights[i].Some? then heights[i].value else 0.0
  }

  /** The sum of the heights of pages `0 .. n-1`. */
  function SumHeights(heights: seq<Option<real>>, n: nat): real
  {
    if n == 0 then 0.0 else SumHeights(heights, n - 1) + HeightAt(heights, n - 1)
  }

  /** The height of the whole document. */
  function TotalHeight(heights: seq<Option<real>>): real
  {
    SumHeights(heights, |heights|)
  }

  predicate NonNegativeHeights(heights: seq<Option<real>>)
  {
    forall i :: 0 <= i < |heights| && heights[i].Some? ==> heights[i].value >= 0.0
  }

  /**
   * The position as a fraction of the document: the heights of the pages
   * strictly before `pageIndex`, plus the offset `top` within that page,
   * over the height of the whole document.
   */
  function Position(heights: seq<Option<real>>, pageIndex: nat, top: real): real
    requires TotalHeight(heights) > 0.0
  {
    (SumHeights(heights, pageIndex) + top) / TotalHeight(heights)
  }

  /** A fraction of the document as the percent the store receives. */
  function Percent(fraction: real): real
  {
    fraction * 100.0
  }

  /** With no negative height, the prefix sums grow with the prefix. */
  lemma {:induction false} SumHeightsMonotone(heights: seq<Option<real>>, m: nat, n: nat)
    requires NonNegativeHeights(heights)
    requires m <= n
    ensures SumHeights(heights, m) <= SumHeights(heights, n)
    decreases n - m
  {
    if m < n {
      SumHeightsMonotone(heights, m, n - 1);
      assert HeightAt(heights, n - 1) >= 0.0;
    }
  }

  /** Pages past the end of the document contribute nothing. */
  lemma {:induction false} SumHeightsPastEnd(heights: seq<Option<real>>, n: nat)
    requires n >= |heights|
    ensures SumHeights(heights, n) == TotalHeight(heights)
    decreases n
  {
    if n > |heights| {
      SumHeightsPastEnd(heights, n - 1);
    }
  }

  /** For a fixed in-page offset, the position does not decrease with the page index. */
  lemma PositionMonotone(heights: seq<Option<real>>, p: nat, q: nat, top: real)
    requires NonNegativeHeights(heights) && TotalHeight(heights) > 0.0
    requires p <= q
    ensures Position(heights, p, top) <= Position(heights, q, top)
  {
    SumHeightsMonotone(heights, p, q);
    DivideMonotone(SumHeights(heights, p) + top, SumHeights(heights, q) + top, TotalHeight(heights));
  }

  lemma DivideMonotone(a: real, b: real, d: real)
    requires a <= b && d > 0.0
    ensures a / d <= b / d
  {
  }

  /**
   * An offset inside an existing page gives a position in [0, 1], so the
   * percent sent to the store lies in [0, 100].
   */
  lemma PositionInUnitRange(heights: seq<Option<real>>, p: nat, top: real)
    requires NonNegativeHeights(heights) && TotalHeight(heights) > 0.0
    requires p < |heights| && 0.0 <= top <= HeightAt(heights, p)
    ensures 0.0 <= Position(heights, p, top) <= 1.0
    ensures 0.0 <= Percent(Position(heights, p, top)) <= 100.0
  {
    SumHeightsMonotone(heights, 0, p);
    SumHeightsMonotone(heights, p + 1, |heights|);
    var t := TotalHeight(heights);
    var x := SumHeights(heights, p) + top;
    assert 0.0 <= x <= t;
    DivideMonotone(0.0, x, t);
    DivideMonotone(x, t, t);
  }

  /** Three pages of heights 100, 200 and 100; offset 50 on the second page. */
  lemma PositionExample()
    ensures TotalHeight([Some(100.0), Some(200.0), Some(100.0)]) == 400.0
    ensures Position([Some(100.0), Some(200.0), Some(100.0)], 1, 50.0) == 0.375
  {
    var h := [Some(100.0), Some(200.0), Some(100.0)];
    assert SumHeights(h, 1) == 100.0;
    assert SumHeights(h, 2) == 300.0;
    assert SumHeights(h, 3) == 400.0;
  }

  function Min(a: real, b: real): real
  {
    if a <= b then a else b
  }

  function Max(a: real, b: real): real
  {
    if a >= b then a else b
  }

  /**
   * `Math.min(100, Math.max(0, ((pageIndex + 1) / totalPageCount) * 100))`:
   * the share of pages up to and including `pageIndex`, clamped to [0, 100].
   */
  function ProgressPercent(pageIndex: int, totalPages: nat): (r: real)
    requires totalPages > 0
    ensures 0.0 <= r <= 100.0
    ensures var raw := (pageIndex + 1) as real / totalPages as real * 100.0;
      && (0.0 <= raw <= 100.0 ==> r == raw)
      && (raw > 100.0 ==> r == 100.0)
      && (raw < 0.0 ==> r == 0.0)
  {
    Min(100.0, Max(0.0, (pageIndex + 1) as real / totalPages as real * 100.0))
  }

  /** For a page that exists the clamp has no effect. */
  lemma ProgressOfExistingPage(pageIndex: nat, totalPages: nat)
    requires pageIndex < totalPages
    ensures ProgressPercent(pageIndex, totalPages) == (pageIndex + 1) as real * 100.0 / totalPages as real
  {
    var raw := (pageIndex + 1) as real / totalPages as real * 100.0;
    assert raw == (pageIndex + 1) as real * 100.0 / totalPages as real;
    assert (pageIndex + 1) as real <= totalPages as real;
    assert raw <= 100.0 by {
      DivideMonotone((pageIndex + 1) as real * 100.0, totalPages as real * 100.0, totalPages as real);
    }
  }

  /**
   * The reading-progress decision: an update with the new percent is due
   * exactly when that percent is strictly above `loadedPercent`, the
   * article's progress as it was loaded.
   */
  function ProgressUpdate(loadedPercent: real, pageIndex: int, totalPages: nat): (r: Option<real>)
    requires totalPages > 0
    ensures r.Some? <==> ProgressPercent(pageIndex, totalPages) > loadedPercent
    ensures r.Some? ==> r.value == ProgressPercent(pageIndex, totalPages) && loadedPercent < r.value <= 100.0
  {
    var percent := ProgressPercent(pageIndex, totalPages);
    if percent <= loadedPercent then None else Some(percent)
  }

  /**
   * Navigating to pages 0, 1, 2 of a three-page document loaded at 0%
   * issues 33.3%, 66.7% and 100%; because the threshold stays at the loaded
   * value, going back to page 0 afterwards issues 33.3% again.
   */
  lemma ProgressAgainstLoadedValue()
    ensures ProgressUpdate(0.0, 0, 3) == Some(100.0 / 3.0)
    ensures ProgressUpdate(0.0, 1, 3) == Some(200.0 / 3.0)
    ensures ProgressUpdate(0.0, 2, 3) == Some(100.0)
    ensures ProgressUpdate(0.0, 0, 3).value < ProgressUpdate(0.0, 2, 3).value
  {
  }

  /** An article loaded at 100% never issues a progress update. */
  lemma NoProgressOnceComplete(pageIndex: int, totalPages: nat)
    requires totalPages > 0
    ensures ProgressUpdate(100.0, pageIndex, totalPages) == None
  {
  }
}

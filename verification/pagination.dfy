/**
 * Page and progress estimates of the book viewer. The rendering library supplies
 * `total`, its `locations.total`, and `index`, the answer of `locationFromCfi` for
 * the current CFI; the viewer turns them into an estimated page count, a current page
 * and a progress percentage, with JavaScript's division-by-zero behaviour.
 */
module Pagination {
  import opened JsValues

  /** `Math.ceil(total * 1.2)`, with 1.2 taken as exactly 6/5. */
  function EstimatedTotalPages(total: nat): (r: nat)
    ensures 5 * r >= 6 * total && 5 * r < 6 * total + 5
    ensures r >= total
  {
    (6 * total + 4) / 5
  }

  /** The page number after a relocation: `Math.max(1, Math.ceil(index / total * estimate))`. */
  function EstimatedPage(index: int, total: nat): (r: Number)
    ensures total == 0 ==> r == NaN
    ensures 1 <= total ==> r.Finite? && IsWhole(r) && 1.0 <= r.v
  {
    PageOf(index, total, EstimatedTotalPages(total))
  }

  /** `Math.max(1, Math.ceil(index / total * pages))` for a page count `pages`. */
  function PageOf(index: int, total: nat, pages: nat): (r: Number)
    ensures r != NegInfinity
    ensures r.Finite? ==> IsWhole(r) && 1.0 <= r.v
    ensures 1 <= total ==> r.Finite?
  {
    MaxNumber(1.0, CeilNumber(Times(Divide(index as real, total as real), pages as real)))
  }

  /** The progress after a relocation: `Math.round(index / (total - 1) * 100)`. */
  function Progress(index: int, total: nat): (r: Number)
    ensures total == 1 ==> !r.Finite?
    ensures total != 1 ==> r.Finite? && IsWhole(r)
  {
    RoundNumber(Times(Divide(index as real, (total - 1) as real), 100.0))
  }

  /** The integer formula is the ceiling of the rational product total * 1.2. */
  lemma EstimatedTotalPagesIsCeiling(total: nat)
    ensures EstimatedTotalPages(total) == Ceil(total as real * 1.2)
  {
    var r := EstimatedTotalPages(total);
    var c := Ceil(total as real * 1.2);
    assert 5 * c >= 6 * total by {
      assert c as real >= total as real * 1.2;
    }
    assert 5 * c < 6 * total + 5 by {
      assert (c as real) < total as real * 1.2 + 1.0;
    }
  }

  /**
   * The page is never below 1: it is NaN, +Infinity, or a whole number of at least 1.
   */
  lemma EstimatedPageAtLeastOne(index: int, total: nat)
    ensures var p := EstimatedPage(index, total);
      p != NegInfinity && (p.Finite? ==> IsWhole(p) && p.v >= 1.0)
  {
    var p := EstimatedPage(index, total);
    if p.Finite? {
      var c := CeilNumber(Times(Divide(index as real, total as real), EstimatedTotalPages(total) as real));
      if c.Finite? {
        assert c.v == c.v.Floor as real;
      }
    }
  }

  /** With `locations.total` = 0 the page is NaN. */
  lemma EstimatedPageWithoutLocations(index: int)
    ensures EstimatedPage(index, 0) == NaN
  {
  }

  /** Helper: the ceiling of a value in [0, n] for a whole n lies in [0, n]. */
  lemma CeilWithin(x: real, n: nat)
    requires 0.0 <= x <= n as real
    ensures 0 <= Ceil(x) <= n
  {
  }

  /** Helper: `Math.ceil` keeps the order. */
  lemma CeilMonotone(x: real, y: real)
    requires x <= y
    ensures Ceil(x) <= Ceil(y)
  {
  }

  /** Helper: `Math.round` keeps the order. */
  lemma RoundMonotone(x: real, y: real)
    requires x <= y
    ensures Round(x) <= Round(y)
  {
  }

  /** Helper: `Math.round` of a whole number is that number. */
  lemma RoundWhole(n: int)
    ensures Round(n as real) == n
  {
  }

  /** Helper: a quotient a / b with 0 <= a <= b lies in [0, 1]. */
  lemma FractionInUnit(a: real, b: real)
    requires 0.0 <= a <= b && 0.0 < b
    ensures 0.0 <= a / b <= 1.0
  {
  }

  /** Helper: scaling a value in [0, 1] by k >= 0 lands in [0, k]. */
  lemma ScaleUnit(q: real, k: real)
    requires 0.0 <= q <= 1.0 && 0.0 <= k
    ensures 0.0 <= q * k <= k
  {
  }

  /** Helper: the ceiling of a fraction in [0, 1] of a page count lies in [0, pages]. */
  lemma UnitPage(q: real, pages: nat)
    requires 0.0 <= q <= 1.0
    ensures 0 <= Ceil(q * pages as real) <= pages
  {
    ScaleUnit(q, pages as real);
    CeilWithin(q * pages as real, pages);
  }

  /** Helper: dividing by a positive number keeps the order. */
  lemma QuotientMonotone(a: real, c: real, b: real)
    requires a <= c && 0.0 < b
    ensures a / b <= c / b
  {
  }

  /** Helper: scaling by k >= 0 keeps the order. */
  lemma ScaleMonotone(x: real, y: real, k: real)
    requires x <= y && 0.0 <= k
    ensures x * k <= y * k
  {
  }

  /** Helper: the ceiling of a value scaled by a page count keeps the order. */
  lemma CeilScaledMonotone(x: real, y: real, pages: nat)
    requires x <= y
    ensures Ceil(x * pages as real) <= Ceil(y * pages as real)
  {
    ScaleMonotone(x, y, pages as real);
    CeilMonotone(x * pages as real, y * pages as real);
  }

  /** The page for total >= 1, as a finite value. */
  lemma PageOfFinite(index: int, total: nat, pages: nat, q: real)
    requires 1 <= total && q == index as real / total as real
    ensures PageOf(index, total, pages) == MaxNumber(1.0, Finite(Ceil(q * pages as real) as real))
  {
    var x := q * pages as real;
    assert PageOf(index, total, pages) == MaxNumber(1.0, CeilNumber(Times(Finite(q), pages as real)));
    assert Times(Finite(q), pages as real) == Finite(x);
    assert CeilNumber(Finite(x)) == Finite(Ceil(x) as real);
  }

  /** The progress for total >= 2, as a finite value. */
  lemma ProgressFinite(index: int, total: nat)
    requires 2 <= total
    ensures Progress(index, total) == Finite(Round(index as real / (total - 1) as real * 100.0) as real)
  {
  }

  /** For 0 <= index <= total, the page lies in [1, pages] (when pages >= 1). */
  lemma PageOfBounds(index: int, total: nat, pages: nat)
    requires 1 <= total && 0 <= index <= total
    ensures var p := PageOf(index, total, pages);
      && p.Finite? && IsWhole(p)
      && 1.0 <= p.v && (1 <= pages ==> p.v <= pages as real)
  {
    var q := index as real / total as real;
    FractionInUnit(index as real, total as real);
    PageOfFinite(index, total, pages, q);
    UnitPage(q, pages);
  }

  /**
   * For total >= 1 and 0 <= index <= total, the page is a whole number between 1
   * and the estimated page count.
   */
  lemma EstimatedPageBounds(index: int, total: nat)
    requires 1 <= total && 0 <= index <= total
    ensures var p := EstimatedPage(index, total);
      && p.Finite? && IsWhole(p)
      && 1.0 <= p.v <= EstimatedTotalPages(total) as real
  {
    PageOfBounds(index, total, EstimatedTotalPages(total));
  }

  /** A larger index never gives an earlier page. */
  lemma EstimatedPageMonotone(i: int, j: int, total: nat)
    requires 1 <= total && i <= j
    ensures EstimatedPage(i, total).Finite? && EstimatedPage(j, total).Finite?
    ensures EstimatedPage(i, total).v <= EstimatedPage(j, total).v
  {
    var pages := EstimatedTotalPages(total);
    var qi, qj := i as real / total as real, j as real / total as real;
    QuotientMonotone(i as real, j as real, total as real);
    CeilScaledMonotone(qi, qj, pages);
    PageOfFinite(i, total, pages, qi);
    PageOfFinite(j, total, pages, qj);
  }

  /**
   * For total >= 2 and 0 <= index <= total - 1, progress is a whole percentage in
   * [0, 100].
   */
  lemma ProgressBounds(index: int, total: nat)
    requires 2 <= total && 0 <= index <= total - 1
    ensures var p := Progress(index, total);
      && p.Finite? && IsWhole(p) && 0.0 <= p.v <= 100.0
  {
    var q := index as real / (total - 1) as real;
    var x := q * 100.0;
    FractionInUnit(index as real, (total - 1) as real);
    ScaleUnit(q, 100.0);
    RoundMonotone(0.0, x);
    RoundMonotone(x, 100.0);
    RoundWhole(0);
    RoundWhole(100);
    ProgressFinite(index, total);
  }

  /** Progress never goes back when the index grows. */
  lemma ProgressMonotone(i: int, j: int, total: nat)
    requires 2 <= total && i <= j
    ensures Progress(i, total).Finite? && Progress(j, total).Finite?
    ensures Progress(i, total).v <= Progress(j, total).v
  {
    var qi, qj := i as real / (total - 1) as real, j as real / (total - 1) as real;
    QuotientMonotone(i as real, j as real, (total - 1) as real);
    ScaleMonotone(qi, qj, 100.0);
    RoundMonotone(qi * 100.0, qj * 100.0);
    ProgressFinite(i, total);
    ProgressFinite(j, total);
  }

  /** Progress is 0 at index 0 and 100 at index total - 1. */
  lemma ProgressEnds(total: nat)
    requires 2 <= total
    ensures Progress(0, total) == Finite(0.0)
    ensures Progress(total - 1, total) == Finite(100.0)
  {
    var last := (total - 1) as real;
    assert 0.0 / last * 100.0 == 0.0;
    assert last / last * 100.0 == 100.0;
    RoundWhole(0);
    RoundWhole(100);
    ProgressFinite(0, total);
    ProgressFinite(total - 1, total);
  }

  /**
   * The page bounds admit index = total, but progress does not: at index total it
   * exceeds 100, reaching 200 when total is 2.
   */
  lemma ProgressPastLastLocation(total: nat)
    requires 2 <= total
    ensures Progress(total, total).Finite? && Progress(total, total).v >= 100.0
    ensures Progress(2, 2) == Finite(200.0)
  {
    var q := total as real / (total - 1) as real;
    assert q >= 1.0 by {
      assert q * (total - 1) as real == total as real;
    }
    ScaleMonotone(1.0, q, 100.0);
    RoundMonotone(100.0, q * 100.0);
    RoundWhole(100);
    ProgressFinite(total, total);
    assert 2.0 / 1.0 * 100.0 == 200.0;
    RoundWhole(200);
    ProgressFinite(2, 2);
  }

  /** With total = 1 progress divides by zero: NaN at index 0, infinite elsewhere. */
  lemma ProgressSingleLocation(index: int)
    ensures index == 0 ==> Progress(index, 1) == NaN
    ensures index > 0 ==> Progress(index, 1) == PosInfinity
    ensures index < 0 ==> Progress(index, 1) == NegInfinity
  {
  }
}

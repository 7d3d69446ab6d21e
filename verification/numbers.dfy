/**
 * JavaScript number idioms used throughout the application, over exact
 * reals: `Math.round`, `Math.ceil`, the `x || d` fallback for nullable
 * numbers, sums, means and "the first greatest" element (the head of a
 * stable descending sort).
 */
module Numbers {
  import opened Wrappers

  /** `Math.round`: the nearest integer, halves rounded up. */
  function Round(x: real): (r: int)
    ensures r as real - 0.5 <= x < r as real + 0.5
  {
    (x + 0.5).Floor
  }

  /** `Math.ceil`: the least integer not below `x`. */
  function Ceil(x: real): (r: int)
    ensures r as real - 1.0 < x <= r as real
  {
    -((-x).Floor)
  }

  /** Rounding preserves order. */
  lemma RoundMonotone(x: real, y: real)
    requires x <= y
    ensures Round(x) <= Round(y)
  {
  }

  /** A value between two integers rounds to a value between them. */
  lemma RoundBetween(x: real, lo: int, hi: int)
    requires lo as real <= x <= hi as real
    ensures lo <= Round(x) <= hi
  {
  }

  /** Rounding an integer gives it back. */
  lemma RoundInteger(n: int)
    ensures Round(n as real) == n
  {
  }

  /**
   * `x || d` for a nullable number: `null`/`undefined` (`None`) and `0`
   * both fall back to `d`.
   */
  function Or(x: Option<real>, d: real): real {
    if x.Some? && x.value != 0.0 then x.value else d
  }

  /** A non-zero fallback makes `x || d` non-zero, so it is safe to divide by. */
  lemma OrNonZero(x: Option<real>, d: real)
    requires d != 0.0
    ensures Or(x, d) != 0.0
  {
  }

  /** `x || d` for a nullable integer. */
  function OrInt(x: Option<int>, d: int): int {
    if x.Some? && x.value != 0 then x.value else d
  }

  /**
   * `(score || 0) / (total || 100) * 100`: a score as a percentage of the
   * exam's total marks, a missing total counting as 100.
   */
  function ScorePercent(score: Option<real>, total: Option<real>): (r: real)
    ensures total.None? ==> r == Or(score, 0.0)
    ensures total.Some? && total.value != 0.0 ==> r * total.value == Or(score, 0.0) * 100.0
    ensures Or(total, 100.0) > 0.0 && 0.0 <= Or(score, 0.0) <= Or(total, 100.0) ==> 0.0 <= r <= 100.0
  {
    OrNonZero(total, 100.0);
    Or(score, 0.0) / Or(total, 100.0) * 100.0
  }

  function Sum(xs: seq<real>): real {
    if |xs| == 0 then 0.0 else Sum(xs[..|xs| - 1]) + xs[|xs| - 1]
  }

  function IntSum(xs: seq<int>): int {
    if |xs| == 0 then 0 else IntSum(xs[..|xs| - 1]) + xs[|xs| - 1]
  }

  /** Summing distributes over concatenation. */
  lemma {:induction false} SumAppend(a: seq<real>, b: seq<real>)
    ensures Sum(a + b) == Sum(a) + Sum(b)
    decreases |b|
  {
    if |b| > 0 {
      assert (a + b)[..|a + b| - 1] == a + b[..|b| - 1];
      SumAppend(a, b[..|b| - 1]);
    } else {
      assert a + b == a;
    }
  }

  /** A sum of values in `[lo, hi]` lies between `n * lo` and `n * hi`. */
  lemma {:induction false} SumBounds(xs: seq<real>, lo: real, hi: real)
    requires forall i :: 0 <= i < |xs| ==> lo <= xs[i] <= hi
    ensures |xs| as real * lo <= Sum(xs) <= |xs| as real * hi
    decreases |xs|
  {
    if |xs| > 0 {
      var n := |xs| as real;
      var init := xs[..|xs| - 1];
      SumBounds(init, lo, hi);
      assert |init| as real == n - 1.0;
      assert Sum(xs) == Sum(init) + xs[|xs| - 1];
      assert lo <= xs[|xs| - 1] <= hi;
      assert (n - 1.0) * lo + lo == n * lo;
      assert (n - 1.0) * hi + hi == n * hi;
    }
  }

  /** The arithmetic mean, or 0 for no values. */
  function Mean(xs: seq<real>): (r: real)
    ensures |xs| == 0 ==> r == 0.0
    ensures |xs| > 0 ==> r * |xs| as real == Sum(xs)
  {
    if |xs| == 0 then 0.0 else Sum(xs) / |xs| as real
  }

  /** The mean of values in `[lo, hi]` is in `[lo, hi]`. */
  lemma MeanBounds(xs: seq<real>, lo: real, hi: real)
    requires |xs| > 0
    requires forall i :: 0 <= i < |xs| ==> lo <= xs[i] <= hi
    ensures lo <= Mean(xs) <= hi
  {
    SumBounds(xs, lo, hi);
    QuotientBounds(Sum(xs), |xs| as real, lo, hi);
  }

  lemma QuotientBounds(a: real, n: real, lo: real, hi: real)
    requires n > 0.0 && n * lo <= a <= n * hi
    ensures lo <= a / n <= hi
  {
    assert a / n * n == a;
  }

  /**
   * The index of the first greatest value: what a stable sort in descending
   * order puts first.
   */
  function FirstMaxIndex(ws: seq<real>): (r: nat)
    requires |ws| > 0
    ensures r < |ws|
    ensures forall j :: 0 <= j < |ws| ==> ws[j] <= ws[r]
    ensures forall j :: 0 <= j < r ==> ws[j] < ws[r]
  {
    if |ws| == 1 then 0
    else
      var k := FirstMaxIndex(ws[..|ws| - 1]);
      if ws[|ws| - 1] > ws[k] then |ws| - 1 else k
  }

  /** The first greatest index is the only index with both of its properties. */
  lemma FirstMaxUnique(ws: seq<real>, k: nat)
    requires k < |ws|
    requires forall j :: 0 <= j < |ws| ==> ws[j] <= ws[k]
    requires forall j :: 0 <= j < k ==> ws[j] < ws[k]
    ensures FirstMaxIndex(ws) == k
  {
  }
}

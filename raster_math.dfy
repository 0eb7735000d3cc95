/**
  Whole-array numpy reductions the flood scripts use, over a raster flattened
  to a sequence of cells: np.sum, np.min, np.max, np.mean, boolean-mask
  indexing (arr[mask]) and the count of a boolean mask (np.sum(mask)).
 */
module RasterMath {

  /** np.sum: the cells added up from the first to the last. */
  function Sum(s: seq<real>): real
  {
    if s == [] then 0.0 else Sum(s[..|s| - 1]) + s[|s| - 1]
  }

  /** Appending a cell adds it to the sum. */
  lemma SumSnoc(s: seq<real>, v: real)
    ensures Sum(s + [v]) == Sum(s) + v
  {
    assert (s + [v])[..|s|] == s;
  }

  /** A sum of cells that are all non-negative is non-negative. */
  lemma {:induction false} SumNonNegative(s: seq<real>)
    requires forall i :: 0 <= i < |s| ==> s[i] >= 0.0
    ensures Sum(s) >= 0.0
  {
    if s != [] {
      SumNonNegative(s[..|s| - 1]);
    }
  }

  /** Adding up cell by cell preserves a cell-wise ordering. */
  lemma {:induction false} SumMonotone(a: seq<real>, b: seq<real>)
    requires |a| == |b|
    requires forall i :: 0 <= i < |a| ==> a[i] <= b[i]
    ensures Sum(a) <= Sum(b)
  {
    if a != [] {
      SumMonotone(a[..|a| - 1], b[..|b| - 1]);
    }
  }

  /** A sum of zero cells is zero. */
  lemma {:induction false} SumZero(s: seq<real>)
    requires forall i :: 0 <= i < |s| ==> s[i] == 0.0
    ensures Sum(s) == 0.0
  {
    if s != [] {
      SumZero(s[..|s| - 1]);
    }
  }

  /** A sum of non-negative cells one of which is positive is positive. */
  lemma {:induction false} SumPositive(s: seq<real>, k: nat)
    requires k < |s| && s[k] > 0.0
    requires forall i :: 0 <= i < |s| ==> s[i] >= 0.0
    ensures Sum(s) > 0.0
  {
    if k == |s| - 1 {
      SumNonNegative(s[..|s| - 1]);
    } else {
      SumPositive(s[..|s| - 1], k);
    }
  }

  /** Every cell within [lo, hi] bounds the sum by |s|*lo and |s|*hi. */
  lemma {:induction false} SumBounds(s: seq<real>, lo: real, hi: real)
    requires forall i :: 0 <= i < |s| ==> lo <= s[i] <= hi
    ensures |s| as real * lo <= Sum(s) <= |s| as real * hi
  {
    if s != [] {
      SumBounds(s[..|s| - 1], lo, hi);
    }
  }

  /** np.min over a non-empty array: a lower bound that some cell attains. */
  function Min(s: seq<real>): (m: real)
    requires |s| > 0
    ensures forall i :: 0 <= i < |s| ==> m <= s[i]
    ensures exists i :: 0 <= i < |s| && s[i] == m
  {
    if |s| == 1 then s[0]
    else
      var m := Min(s[..|s| - 1]);
      assert forall i :: 0 <= i < |s| - 1 ==> s[..|s| - 1][i] == s[i];
      if s[|s| - 1] < m then s[|s| - 1] else m
  }

  /** np.max over a non-empty array: an upper bound that some cell attains. */
  function Max(s: seq<real>): (m: real)
    requires |s| > 0
    ensures forall i :: 0 <= i < |s| ==> s[i] <= m
    ensures exists i :: 0 <= i < |s| && s[i] == m
  {
    if |s| == 1 then s[0]
    else
      var m := Max(s[..|s| - 1]);
      assert forall i :: 0 <= i < |s| - 1 ==> s[..|s| - 1][i] == s[i];
      if s[|s| - 1] > m then s[|s| - 1] else m
  }

  /** np.sum of a boolean mask: the number of cells it selects. */
  function Count(mask: seq<bool>): (n: nat)
    ensures n <= |mask|
  {
    if mask == [] then 0
    else Count(mask[..|mask| - 1]) + (if mask[|mask| - 1] then 1 else 0)
  }

  /** A mask with no selected cell, and only such a mask, counts zero. */
  lemma {:induction false} CountZero(mask: seq<bool>)
    ensures Count(mask) == 0 <==> forall i :: 0 <= i < |mask| ==> !mask[i]
  {
    if mask != [] {
      CountZero(mask[..|mask| - 1]);
      assert forall i :: 0 <= i < |mask| - 1 ==> mask[..|mask| - 1][i] == mask[i];
    }
  }

  /** arr[mask]: the selected cells, in grid order. */
  function Select<T>(s: seq<T>, mask: seq<bool>): (r: seq<T>)
    requires |s| == |mask|
    ensures |r| == Count(mask)
  {
    if s == [] then []
    else Select(s[..|s| - 1], mask[..|mask| - 1]) + (if mask[|mask| - 1] then [s[|s| - 1]] else [])
  }

  /** Every cell of arr[mask] is a cell of arr that the mask selects. */
  lemma {:induction false} SelectFrom<T>(s: seq<T>, mask: seq<bool>, j: nat)
    requires |s| == |mask| && j < |Select(s, mask)|
    ensures exists i :: 0 <= i < |s| && mask[i] && Select(s, mask)[j] == s[i]
  {
    var n := |s| - 1;
    var front := Select(s[..n], mask[..n]);
    if j < |front| {
      SelectFrom(s[..n], mask[..n], j);
      var i :| 0 <= i < n && mask[..n][i] && front[j] == s[..n][i];
      assert Select(s, mask)[j] == s[i];
    } else {
      assert mask[n] && Select(s, mask)[j] == s[n];
    }
  }

  /** Bounds that hold on every selected cell hold on every cell of arr[mask]. */
  lemma SelectBounds(s: seq<real>, mask: seq<bool>, lo: real, hi: real)
    requires |s| == |mask|
    requires forall i :: 0 <= i < |s| && mask[i] ==> lo <= s[i] <= hi
    ensures forall j :: 0 <= j < |Select(s, mask)| ==> lo <= Select(s, mask)[j] <= hi
  {
    forall j | 0 <= j < |Select(s, mask)|
      ensures lo <= Select(s, mask)[j] <= hi
    {
      SelectFrom(s, mask, j);
    }
  }

  /** np.mean over a non-empty array. */
  function Mean(s: seq<real>): real
    requires |s| > 0
  {
    Sum(s) / |s| as real
  }

  /** The mean of cells within [lo, hi] lies within [lo, hi]. */
  lemma MeanBounds(s: seq<real>, lo: real, hi: real)
    requires |s| > 0
    requires forall i :: 0 <= i < |s| ==> lo <= s[i] <= hi
    ensures lo <= Mean(s) <= hi
  {
    SumBounds(s, lo, hi);
    var n := |s| as real;
    DivBetween(Sum(s), n, lo, hi);
  }

  /** Dividing a value between n*lo and n*hi by a positive n lands between lo and hi. */
  lemma DivBetween(x: real, n: real, lo: real, hi: real)
    requires n > 0.0 && n * lo <= x <= n * hi
    ensures lo <= x / n <= hi
  {
    var q := x / n;
    assert q * n == x;
  }

  /** 2^n as a real: the factor by which n bisection steps shrink a bracket. */
  function Pow2(n: nat): (r: real)
    ensures r >= 1.0
  {
    if n == 0 then 1.0 else 2.0 * Pow2(n - 1)
  }

  /** Products of reals, stated once for the non-linear steps of the proofs. */
  lemma MulNonNegative(a: real, b: real)
    requires a >= 0.0 && b >= 0.0
    ensures a * b >= 0.0
  {
  }

  lemma MulMonotone(a: real, b: real, c: real)
    requires a <= b && c >= 0.0
    ensures a * c <= b * c
  {
    MulNonNegative(b - a, c);
  }

  lemma MulStrict(a: real, b: real, c: real)
    requires a < b && c > 0.0
    ensures a * c < b * c
  {
    assert (b - a) * c > 0.0;
  }

  /** Comparing fractions with positive denominators by cross-multiplying. */
  lemma DivCompare(n1: real, d1: real, n2: real, d2: real)
    requires d1 > 0.0 && d2 > 0.0 && n1 * d2 <= n2 * d1
    ensures n1 / d1 <= n2 / d2
  {
    var q1, q2 := n1 / d1, n2 / d2;
    assert q1 * d1 == n1 && q2 * d2 == n2;
    assert q1 * d1 * d2 == n1 * d2;
    assert q2 * d2 * d1 == n2 * d1;
    if q1 > q2 {
      MulStrict(q2, q1, d1 * d2);
      assert false;
    }
  }
}

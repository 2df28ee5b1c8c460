/**
 * The composite-rule formulas that both integration front ends use: the
 * sample-data calculator (apps/calculator/utils/integration_methods.py) and the
 * function-handle integrator (core/methods.py).
 *
 * Python's strided slices and ranges are modelled as filter sums over an index
 * prefix: `y[1::2]` is `SumOdd(y, |y|)`, `y[2:-1:2]` is `SumEven(y, |y| - 1)`,
 * `range(1, n, 2)` is `SumOdd(ys, n)`, `range(2, n, 2)` is `SumEven(ys, n)`,
 * `range(1, n) if i % 3 != 0` is `SumNotMul3(ys, n)` and `range(3, n, 3)` is
 * `SumMul3(ys, n)`. Every sum is exact (real arithmetic).
 */
module Kernels {

  // ---------------------------------------------------------------------------
  // Sums

  /** Left-to-right sum of a sequence (Python's `sum` / `np.sum`). */
  function Sum(s: seq<real>): real
  {
    if |s| == 0 then 0.0 else Sum(s[..|s| - 1]) + s[|s| - 1]
  }

  lemma SumSnoc(s: seq<real>, x: real)
    ensures Sum(s + [x]) == Sum(s) + x
  {
    assert (s + [x])[..|s|] == s;
  }

  /** Sum of y[i] over the odd indices i < hi. */
  function SumOdd(y: seq<real>, hi: nat): real
    requires hi <= |y|
  {
    if hi == 0 then 0.0 else SumOdd(y, hi - 1) + (if (hi - 1) % 2 == 1 then y[hi - 1] else 0.0)
  }

  /** Sum of y[i] over the even indices 2 <= i < hi. */
  function SumEven(y: seq<real>, hi: nat): real
    requires hi <= |y|
  {
    if hi <= 2 then 0.0 else SumEven(y, hi - 1) + (if (hi - 1) % 2 == 0 then y[hi - 1] else 0.0)
  }

  /** Sum of y[i] over 1 <= i < hi with i not a multiple of 3. */
  function SumNotMul3(y: seq<real>, hi: nat): real
    requires hi <= |y|
  {
    if hi == 0 then 0.0 else SumNotMul3(y, hi - 1) + (if (hi - 1) % 3 != 0 then y[hi - 1] else 0.0)
  }

  /** Sum of y[i] over the multiples of 3 with 3 <= i < hi. */
  function SumMul3(y: seq<real>, hi: nat): real
    requires hi <= |y|
  {
    if hi <= 3 then 0.0 else SumMul3(y, hi - 1) + (if (hi - 1) % 3 == 0 then y[hi - 1] else 0.0)
  }

  /** The filter sums below hi only read y[..hi], so they are the same on any prefix that keeps it. */
  lemma {:induction false} SumsOfPrefix(y: seq<real>, k: nat, hi: nat)
    requires hi <= k <= |y|
    ensures SumOdd(y[..k], hi) == SumOdd(y, hi)
    ensures SumEven(y[..k], hi) == SumEven(y, hi)
    ensures SumNotMul3(y[..k], hi) == SumNotMul3(y, hi)
    ensures SumMul3(y[..k], hi) == SumMul3(y, hi)
  {
    if hi > 0 {
      SumsOfPrefix(y, k, hi - 1);
      assert y[..k][hi - 1] == y[hi - 1];
    }
  }

  // ---------------------------------------------------------------------------
  // Trapezoids

  /** Σ_{lo <= i < hi} (w[i]/2)(y[i] + y[i+1]): one trapezoid per interval, each with its own width. */
  function WidthTrapSum(w: seq<real>, y: seq<real>, lo: nat, hi: nat): real
    requires |y| == |w| + 1 && lo <= hi <= |w|
    decreases hi
  {
    if hi == lo then 0.0 else WidthTrapSum(w, y, lo, hi - 1) + (w[hi - 1] / 2.0) * (y[hi - 1] + y[hi])
  }

  /** Σ_{lo <= i < hi} (h/2)(y[i] + y[i+1]): one trapezoid per interval, all of width h. */
  function UniformTrapSum(h: real, y: seq<real>, lo: nat, hi: nat): real
    requires lo <= hi < |y|
    decreases hi
  {
    if hi == lo then 0.0 else UniformTrapSum(h, y, lo, hi - 1) + (h / 2.0) * (y[hi - 1] + y[hi])
  }

  /** The calculator's closed form (h/2)(y0 + 2·Σ interior + yn). */
  function TrapezoidClosed(h: real, y: seq<real>): real
    requires |y| >= 2
  {
    (h / 2.0) * (y[0] + 2.0 * Sum(y[1..|y| - 1]) + y[|y| - 1])
  }

  lemma {:induction false} TrapezoidPrefix(h: real, y: seq<real>, k: nat)
    requires 1 <= k < |y|
    ensures UniformTrapSum(h, y, 0, k) == (h / 2.0) * (y[0] + 2.0 * Sum(y[1..k]) + y[k])
  {
    if k > 1 {
      TrapezoidPrefix(h, y, k - 1);
      assert y[1..k][..k - 2] == y[1..k - 1];
      var a := y[0] + 2.0 * Sum(y[1..k - 1]) + y[k - 1];
      var b := y[k - 1] + y[k];
      assert (h / 2.0) * a + (h / 2.0) * b == (h / 2.0) * (a + b);
    }
  }

  /** The closed trapezoid form is the sum of the per-interval trapezoids. */
  lemma TrapezoidClosedIsIntervalSum(h: real, y: seq<real>)
    requires |y| >= 2
    ensures TrapezoidClosed(h, y) == UniformTrapSum(h, y, 0, |y| - 1)
  {
    TrapezoidPrefix(h, y, |y| - 1);
  }

  /** When every width is exactly h, the per-width sum is the uniform one. */
  lemma {:induction false} EqualWidthsTrapSum(w: seq<real>, y: seq<real>, h: real, lo: nat, hi: nat)
    requires |y| == |w| + 1 && lo <= hi <= |w|
    requires forall i :: lo <= i < hi ==> w[i] == h
    ensures WidthTrapSum(w, y, lo, hi) == UniformTrapSum(h, y, lo, hi)
    decreases hi
  {
    if hi > lo {
      EqualWidthsTrapSum(w, y, h, lo, hi - 1);
      var t := y[hi - 1] + y[hi];
      assert WidthTrapSum(w, y, lo, hi) == WidthTrapSum(w, y, lo, hi - 1) + (w[hi - 1] / 2.0) * t;
      assert UniformTrapSum(h, y, lo, hi) == UniformTrapSum(h, y, lo, hi - 1) + (h / 2.0) * t;
      ProductCongruence(w[hi - 1] / 2.0, h / 2.0, t, t);
    }
  }

  /** Equal factors give equal products (stated once so that the solver need not substitute inside a product). */
  lemma ProductCongruence(a: real, b: real, c: real, d: real)
    requires a == b && c == d
    ensures a * c == b * d
  {
  }

  /** Trapezoid sums split at any intermediate point. */
  lemma {:induction false} WidthTrapSplit(w: seq<real>, y: seq<real>, lo: nat, mid: nat, hi: nat)
    requires |y| == |w| + 1 && lo <= mid <= hi <= |w|
    ensures WidthTrapSum(w, y, lo, hi) == WidthTrapSum(w, y, lo, mid) + WidthTrapSum(w, y, mid, hi)
    decreases hi
  {
    if hi > mid {
      WidthTrapSplit(w, y, lo, mid, hi - 1);
    }
  }

  // ---------------------------------------------------------------------------
  // Simpson 1/3

  /**
   * The calculator's Simpson 1/3 weighted sum of the points y:
   * y[0] + y[-1] + 4·Σ y[1::2] + 2·Σ y[2:-1:2]. On a single point it is 2·y[0].
   */
  function SliceWeighted13(y: seq<real>): real
    requires |y| >= 1
  {
    y[0] + y[|y| - 1] + 4.0 * SumOdd(y, |y|) + 2.0 * SumEven(y, |y| - 1)
  }

  /** The integrator's form: ys[0] + ys[n] + 4·Σ_{range(1,n,2)} + 2·Σ_{range(2,n,2)}. */
  function Closed13(y: seq<real>, m: nat): real
    requires m < |y|
  {
    y[0] + y[m] + 4.0 * SumOdd(y, m) + 2.0 * SumEven(y, m)
  }

  /** On an even number of intervals the slice form and the range form agree. */
  lemma SliceIsClosed13(y: seq<real>)
    requires |y| >= 1 && (|y| - 1) % 2 == 0
    ensures SliceWeighted13(y) == Closed13(y, |y| - 1)
  {
  }

  /** Simpson 1/3 point weights: 1 at both ends, 4 at odd indices, 2 at interior even ones. */
  function Weight13(i: nat, m: nat): real
  {
    if i == 0 || i == m then 1.0 else if i % 2 == 1 then 4.0 else 2.0
  }

  /** Σ_{i < k} Weight13(i, m)·y[i]. */
  function Weighted13(y: seq<real>, m: nat, k: nat): real
    requires k <= |y|
  {
    if k == 0 then 0.0 else Weighted13(y, m, k - 1) + Weight13(k - 1, m) * y[k - 1]
  }

  lemma {:induction false} Weighted13Prefix(y: seq<real>, m: nat, k: nat)
    requires 1 <= k <= m < |y|
    ensures Weighted13(y, m, k) == y[0] + 4.0 * SumOdd(y, k) + 2.0 * SumEven(y, k)
  {
    if k > 1 {
      Weighted13Prefix(y, m, k - 1);
    }
  }

  /** The closed Simpson 1/3 form is the point-weight pattern 1, 4, 2, 4, ..., 2, 4, 1. */
  lemma Closed13ByWeights(y: seq<real>, m: nat)
    requires 1 <= m < |y|
    ensures Closed13(y, m) == Weighted13(y, m, m + 1)
  {
    Weighted13Prefix(y, m, m);
  }

  /** Σ_{k < p} of the elementary Simpson panels y[2k] + 4·y[2k+1] + y[2k+2]. */
  function PanelSum13(y: seq<real>, p: nat): real
    requires 2 * p < |y|
  {
    if p == 0 then 0.0 else PanelSum13(y, p - 1) + (y[2 * p - 2] + 4.0 * y[2 * p - 1] + y[2 * p])
  }

  /** Composite Simpson 1/3 over 2p intervals is the sum of its p elementary panels. */
  lemma {:induction false} Closed13Panels(y: seq<real>, p: nat)
    requires 1 <= p && 2 * p < |y|
    ensures Closed13(y, 2 * p) == PanelSum13(y, p)
  {
    if p > 1 {
      Closed13Panels(y, p - 1);
      assert SumOdd(y, 2 * p) == SumOdd(y, 2 * p - 2) + y[2 * p - 1] by {
        assert SumOdd(y, 2 * p - 1) == SumOdd(y, 2 * p - 2);
      }
      assert SumEven(y, 2 * p) == SumEven(y, 2 * p - 2) + y[2 * p - 2] by {
        assert SumEven(y, 2 * p) == SumEven(y, 2 * p - 1);
      }
    } else {
      assert SumOdd(y, 2) == y[1] by { assert SumOdd(y, 1) == 0.0; }
    }
  }

  // ---------------------------------------------------------------------------
  // Simpson 3/8

  /** The integrator's form: ys[0] + ys[n] + 3·sum_mod3 + 2·sum_mul3. */
  function Closed38(y: seq<real>, m: nat): real
    requires m < |y|
  {
    y[0] + y[m] + 3.0 * SumNotMul3(y, m) + 2.0 * SumMul3(y, m)
  }

  /** Simpson 3/8 point weights: 1 at both ends, 3 off the multiples of 3, 2 at interior multiples of 3. */
  function Weight38(i: nat, m: nat): real
  {
    if i == 0 || i == m then 1.0 else if i % 3 != 0 then 3.0 else 2.0
  }

  /** Σ_{i < k} Weight38(i, m)·y[i]. */
  function Weighted38(y: seq<real>, m: nat, k: nat): real
    requires k <= |y|
  {
    if k == 0 then 0.0 else Weighted38(y, m, k - 1) + Weight38(k - 1, m) * y[k - 1]
  }

  lemma {:induction false} Weighted38Prefix(y: seq<real>, m: nat, k: nat)
    requires 1 <= k <= m < |y|
    ensures Weighted38(y, m, k) == y[0] + 3.0 * SumNotMul3(y, k) + 2.0 * SumMul3(y, k)
  {
    if k > 1 {
      Weighted38Prefix(y, m, k - 1);
    }
  }

  /** The closed Simpson 3/8 form is the point-weight pattern 1, 3, 3, 2, 3, 3, 2, ..., 3, 3, 1. */
  lemma Closed38ByWeights(y: seq<real>, m: nat)
    requires 1 <= m < |y|
    ensures Closed38(y, m) == Weighted38(y, m, m + 1)
  {
    Weighted38Prefix(y, m, m);
  }

  /** Σ_{k < p} of the elementary 3/8 panels y[3k] + 3·y[3k+1] + 3·y[3k+2] + y[3k+3]. */
  function PanelSum38(y: seq<real>, p: nat): real
    requires 3 * p < |y|
  {
    if p == 0 then 0.0
    else PanelSum38(y, p - 1) + (y[3 * p - 3] + 3.0 * y[3 * p - 2] + 3.0 * y[3 * p - 1] + y[3 * p])
  }

  /** Composite Simpson 3/8 over 3p intervals is the sum of its p elementary panels. */
  lemma {:induction false} Closed38Panels(y: seq<real>, p: nat)
    requires 1 <= p && 3 * p < |y|
    ensures Closed38(y, 3 * p) == PanelSum38(y, p)
  {
    var k := 3 * p;
    if p > 1 {
      Closed38Panels(y, p - 1);
      assert SumNotMul3(y, k) == SumNotMul3(y, k - 3) + y[k - 2] + y[k - 1] by {
        assert SumNotMul3(y, k - 2) == SumNotMul3(y, k - 3);
        assert SumNotMul3(y, k - 1) == SumNotMul3(y, k - 2) + y[k - 2];
      }
      assert SumMul3(y, k) == SumMul3(y, k - 3) + y[k - 3] by {
        assert SumMul3(y, k - 1) == SumMul3(y, k - 2);
        assert SumMul3(y, k) == SumMul3(y, k - 1);
      }
    } else {
      assert SumNotMul3(y, 3) == y[1] + y[2] by {
        assert SumNotMul3(y, 1) == 0.0;
      }
    }
  }
}

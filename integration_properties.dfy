/**
 * Properties of IntegrationCalculator's rules
 * (apps/calculator/utils/integration_methods.py), stated on the functions of
 * IntegrationSpec, which IntegrationMethods' loops are proved to compute.
 */
module IntegrationProperties {
  import opened Wrappers
  import opened Kernels
  import opened Chunks
  import opened IntegrationSpec

  // ---------------------------------------------------------------------------
  // Shapes of the per-interval traces

  /** steps are the area steps of intervals lo, lo + 1, ..., each with its own width from w. */
  predicate AreaSteps(steps: seq<Step>, w: seq<real>, y: seq<real>, lo: nat)
  {
    |y| == |w| + 1 && lo + |steps| <= |w| &&
    forall t :: 0 <= t < |steps| ==>
      steps[t] == IntervalArea(lo + t, w[lo + t], y[lo + t], y[lo + t + 1], (w[lo + t] / 2.0) * (y[lo + t] + y[lo + t + 1]))
  }

  /** steps are the area steps of intervals lo, lo + 1, ..., all of the common width h. */
  predicate TailAreaSteps(steps: seq<Step>, h: real, y: seq<real>, lo: nat)
  {
    lo + |steps| < |y| &&
    forall t :: 0 <= t < |steps| ==>
      steps[t] == IntervalArea(lo + t, h, y[lo + t], y[lo + t + 1], (h / 2.0) * (y[lo + t] + y[lo + t + 1]))
  }

  /** steps are the trapezoid steps of intervals lo, lo + 1, ... inside the chunk that starts at s. */
  predicate ChunkAreaSteps(steps: seq<Step>, w: seq<real>, y: seq<real>, s: nat, lo: nat)
  {
    |y| == |w| + 1 && lo + |steps| <= |w| &&
    forall t :: 0 <= t < |steps| ==>
      steps[t] == ChunkInterval(s, lo + t, w[lo + t], y[lo + t], y[lo + t + 1], (w[lo + t] / 2.0) * (y[lo + t] + y[lo + t + 1]))
  }

  lemma {:induction false} IntervalTraceAt(w: seq<real>, y: seq<real>, lo: nat, hi: nat)
    requires |y| == |w| + 1 && lo <= hi <= |w|
    ensures |IntervalTrace(w, y, lo, hi)| == hi - lo
    ensures AreaSteps(IntervalTrace(w, y, lo, hi), w, y, lo)
    decreases hi
  {
    if hi > lo {
      IntervalTraceAt(w, y, lo, hi - 1);
    }
  }

  lemma {:induction false} TailTraceAt(h: real, y: seq<real>, lo: nat, hi: nat)
    requires lo <= hi < |y|
    ensures |TailTrace(h, y, lo, hi)| == hi - lo
    ensures TailAreaSteps(TailTrace(h, y, lo, hi), h, y, lo)
    decreases hi
  {
    if hi > lo {
      TailTraceAt(h, y, lo, hi - 1);
    }
  }

  lemma {:induction false} ChunkIntervalTraceAt(w: seq<real>, y: seq<real>, s: nat, lo: nat, hi: nat)
    requires |y| == |w| + 1 && lo <= hi <= |w|
    ensures |ChunkIntervalTrace(w, y, s, lo, hi)| == hi - lo
    ensures ChunkAreaSteps(ChunkIntervalTrace(w, y, s, lo, hi), w, y, s, lo)
    ensures forall t :: 0 <= t < hi - lo ==> !ChunkIntervalTrace(w, y, s, lo, hi)[t].ChunkFound?
    decreases hi
  {
    if hi > lo {
      ChunkIntervalTraceAt(w, y, s, lo, hi - 1);
    }
  }

  lemma PrefixSlice(a: seq<Step>, b: seq<Step>, i: nat, j: nat)
    requires i <= j <= |a|
    ensures (a + b)[i..j] == a[i..j]
  {
  }

  // ---------------------------------------------------------------------------
  // What each rule's record is made of, branch by branch

  lemma TrapezoidalShape(c: Calculator)
    requires c.Valid()
    ensures TrapezoidalSpec(c).errorEstimate == TrapezoidalError(c) && TrapezoidalSpec(c).methodName == TrapezoidalName
    ensures Uniform(c) ==>
      TrapezoidalSpec(c).value == TrapezoidUniformPart(c).value &&
      TrapezoidalSpec(c).steps == TrapezoidUniformPart(c).steps + ErrorTrace(TrapezoidalError(c))
    ensures !Uniform(c) ==>
      TrapezoidalSpec(c).value == TrapezoidIrregularPart(c).value &&
      TrapezoidalSpec(c).steps == TrapezoidIrregularPart(c).steps + ErrorTrace(TrapezoidalError(c))
  {
  }

  lemma Simpson13Shape(c: Calculator)
    requires c.Valid()
    ensures Simpson13Spec(c).errorEstimate == SimpsonError(c, false)
    ensures !Uniform(c) ==>
      Simpson13Spec(c).value == AdaptiveBranch(c, 2).value &&
      Simpson13Spec(c).steps == AdaptiveBranch(c, 2).steps + ErrorTrace(SimpsonError(c, false)) &&
      Simpson13Spec(c).methodName == Simpson13AdaptiveName
    ensures Uniform(c) && c.N() % 2 == 0 ==>
      Simpson13Spec(c).value == Simpson13EvenPart(c).value &&
      Simpson13Spec(c).steps == Simpson13EvenPart(c).steps + ErrorTrace(SimpsonError(c, false)) &&
      Simpson13Spec(c).methodName == Simpson13Name
    ensures Uniform(c) && c.N() % 2 != 0 ==>
      Simpson13Spec(c).value == Simpson13OddPartAsWritten(c).value &&
      Simpson13Spec(c).steps == Simpson13OddPartAsWritten(c).steps + ErrorTrace(SimpsonError(c, false)) &&
      Simpson13Spec(c).methodName == Simpson13HybridName
  {
  }

  lemma Simpson38Shape(c: Calculator)
    requires c.Valid()
    ensures Simpson38Spec(c).errorEstimate == SimpsonError(c, true)
    ensures !Uniform(c) ==>
      Simpson38Spec(c).value == AdaptiveBranch(c, 3).value &&
      Simpson38Spec(c).steps == AdaptiveBranch(c, 3).steps + ErrorTrace(SimpsonError(c, true)) &&
      Simpson38Spec(c).methodName == Simpson38AdaptiveName
    ensures Uniform(c) && c.N() % 3 == 0 ==>
      Simpson38Spec(c).value == Simpson38PurePart(c).value &&
      Simpson38Spec(c).steps == Simpson38PurePart(c).steps + ErrorTrace(SimpsonError(c, true)) &&
      Simpson38Spec(c).methodName == Simpson38Name
    ensures Uniform(c) && c.N() % 3 != 0 ==>
      Simpson38Spec(c).value == Simpson38HybridPart(c).value &&
      Simpson38Spec(c).steps == Simpson38HybridPart(c).steps + ErrorTrace(SimpsonError(c, true)) &&
      Simpson38Spec(c).methodName == Simpson38HybridName
  {
  }

  // ---------------------------------------------------------------------------
  // Trapezoidal rule

  /** Every interval has exactly the first interval's width. */
  predicate ExactlyUniform(c: Calculator)
    requires c.Valid()
  {
    var w := Diff(c.xs);
    forall i :: 0 <= i < |w| ==> w[i] == w[0]
  }

  /**
   * The trapezoidal result is the sum of one trapezoid per interval: always on
   * the unequal-interval branch, and on the closed form whenever the spacing is
   * exactly uniform (so the two branches agree there).
   */
  lemma TrapezoidalIsIntervalSum(c: Calculator)
    requires c.Valid()
    requires !Uniform(c) || ExactlyUniform(c)
    ensures TrapezoidalSpec(c).value == WidthTrapSum(Diff(c.xs), c.ys, 0, c.N())
  {
    TrapezoidalShape(c);
    var w := Diff(c.xs);
    if Uniform(c) {
      TrapezoidClosedIsIntervalSum(w[0], c.ys);
      EqualWidthsTrapSum(w, c.ys, w[0], 0, c.N());
    }
  }

  lemma TrapezoidIrregularTrace(c: Calculator)
    requires c.Valid()
    ensures var p := TrapezoidIrregularPart(c);
      |p.steps| == c.N() + 2 &&
      p.steps[0] == UnequalIntervals &&
      AreaSteps(p.steps[1..c.N() + 1], Diff(c.xs), c.ys, 0) &&
      p.steps[c.N() + 1] == TotalArea(p.value)
  {
    var w := Diff(c.xs);
    var trace := IntervalTrace(w, c.ys, 0, c.N());
    IntervalTraceAt(w, c.ys, 0, c.N());
    var p := TrapezoidIrregularPart(c);
    assert p.steps == [UnequalIntervals] + trace + [TotalArea(p.value)];
    assert p.steps[1..c.N() + 1] == trace;
  }

  /**
   * On unequal intervals the trace is the opening step, one area step per
   * interval in order (with that interval's own width), then the total; no error
   * estimate is given.
   */
  lemma TrapezoidalIrregularTrace(c: Calculator)
    requires c.Valid() && !Uniform(c)
    ensures var r := TrapezoidalSpec(c);
      |r.steps| == c.N() + 2 &&
      r.steps[0] == UnequalIntervals &&
      AreaSteps(r.steps[1..c.N() + 1], Diff(c.xs), c.ys, 0) &&
      r.steps[c.N() + 1] == TotalArea(r.value) &&
      r.errorEstimate == None
  {
    assert TrapezoidalError(c) == None;
    TrapezoidalShape(c);
    TrapezoidIrregularTrace(c);
    assert TrapezoidalSpec(c).steps == TrapezoidIrregularPart(c).steps;
  }

  // ---------------------------------------------------------------------------
  // Error estimates

  lemma {:induction false} AscendingSpan(xs: seq<real>, i: nat)
    requires Ascending(xs) && i < |xs|
    ensures xs[0] <= xs[i]
  {
    if i > 0 {
      AscendingSpan(xs, i - 1);
      assert StepsUp(xs, i - 1);
    }
  }

  /** The record ends with an "Error Estimate" step carrying its estimate, whenever it has one. */
  predicate EndsWithEstimate(r: RuleResult)
  {
    r.errorEstimate.Some? ==> |r.steps| > 0 && r.steps[|r.steps| - 1] == ErrorEstimate(r.errorEstimate.value)
  }

  /** The trapezoidal rule gives an estimate (and its closing step) exactly on uniform spacing with more than 2 points. */
  lemma TrapezoidalErrorAvailability(c: Calculator)
    requires c.Valid()
    ensures TrapezoidalSpec(c).errorEstimate.Some? <==> |c.xs| > 2 && Uniform(c)
    ensures EndsWithEstimate(TrapezoidalSpec(c))
  {
    TrapezoidalShape(c);
    if |c.ys| > 2 {
      assert |Diff(Diff(c.ys))| == |c.ys| - 2;
    }
  }

  lemma FourthDifferencesLength(y: seq<real>)
    requires |y| > 4
    ensures |Diff(Diff(Diff(Diff(y))))| == |y| - 4
  {
  }

  /** Simpson's 1/3 rule gives an estimate (and its closing step) exactly on uniform spacing with more than 4 points. */
  lemma Simpson13ErrorAvailability(c: Calculator)
    requires c.Valid()
    ensures Simpson13Spec(c).errorEstimate.Some? <==> |c.xs| > 4 && Uniform(c)
    ensures EndsWithEstimate(Simpson13Spec(c))
  {
    Simpson13Shape(c);
    if |c.ys| > 4 {
      FourthDifferencesLength(c.ys);
    }
  }

  /** Simpson's 3/8 rule gives an estimate (and its closing step) exactly on uniform spacing with more than 4 points. */
  lemma Simpson38ErrorAvailability(c: Calculator)
    requires c.Valid()
    ensures Simpson38Spec(c).errorEstimate.Some? <==> |c.xs| > 4 && Uniform(c)
    ensures EndsWithEstimate(Simpson38Spec(c))
  {
    Simpson38Shape(c);
    if |c.ys| > 4 {
      FourthDifferencesLength(c.ys);
    }
  }

  lemma NonNegativeProduct(a: real, b: real)
    requires a >= 0.0 && b >= 0.0
    ensures a * b >= 0.0
  {
  }

  lemma TrapezoidalEstimateNonPositive(h: real, second: seq<real>, n: nat)
    requires |second| > 0 && h >= 0.0
    ensures TrapezoidalEstimate(h, second, n) <= 0.0
  {
    CubeNonNegative(h);
    MaxAbsNonNegative(second);
    NegatedProduct(h * h * h / 12.0, MaxAbs(second), n as real);
  }

  lemma TrapezoidalErrorNonPositive(c: Calculator)
    requires c.Valid()
    ensures TrapezoidalError(c).Some? ==> TrapezoidalError(c).value <= 0.0
  {
    if TrapezoidalError(c).Some? {
      FirstWidthNonNegative(c);
      TrapezoidalEstimateNonPositive(Diff(c.xs)[0], Diff(Diff(c.ys)), c.N());
    }
  }

  lemma NegatedProduct(k: real, m: real, span: real)
    requires k >= 0.0 && m >= 0.0 && span >= 0.0
    ensures (-k) * m * span <= 0.0
  {
    NonNegativeProduct(k, m);
    NonNegativeProduct(k * m, span);
    assert (-k) * m * span == -(k * m * span);
  }

  lemma CubeNonNegative(h: real)
    requires h >= 0.0
    ensures h * h * h >= 0.0
  {
    NonNegativeProduct(h, h);
    NonNegativeProduct(h * h, h);
  }

  lemma FifthPowerNonNegative(h: real)
    requires h >= 0.0
    ensures h * h * h * h * h >= 0.0
  {
    NonNegativeProduct(h, h);
    NonNegativeProduct(h * h, h);
    NonNegativeProduct(h * h * h, h);
    NonNegativeProduct(h * h * h * h, h);
  }

  lemma FirstWidthNonNegative(c: Calculator)
    requires c.Valid()
    ensures Diff(c.xs)[0] >= 0.0
  {
    DiffAt(c.xs);
    assert StepsUp(c.xs, 0);
  }

  lemma MaxAbsNonNegative(s: seq<real>)
    requires |s| > 0
    ensures MaxAbs(s) >= 0.0
  {
    MaxAbsIsMaximum(s);
    assert Abs(s[0]) >= 0.0;
  }

  lemma SimpsonEstimateNonPositive(h: real, fourth: seq<real>, span: real, threeEighths: bool)
    requires |fourth| > 0 && h >= 0.0 && span >= 0.0
    ensures SimpsonEstimate(h, fourth, span, threeEighths) <= 0.0
  {
    FifthPowerNonNegative(h);
    var h5 := h * h * h * h * h;
    MaxAbsNonNegative(fourth);
    NegatedProduct(if threeEighths then 3.0 * h5 / 80.0 else h5 / 90.0, MaxAbs(fourth), span);
  }

  lemma SimpsonErrorNonPositive(c: Calculator, threeEighths: bool)
    requires c.Valid()
    ensures SimpsonError(c, threeEighths).Some? ==> SimpsonError(c, threeEighths).value <= 0.0
  {
    if SimpsonError(c, threeEighths).Some? {
      FirstWidthNonNegative(c);
      AscendingSpan(c.xs, |c.xs| - 1);
      SimpsonEstimateNonPositive(Diff(c.xs)[0], Diff(Diff(Diff(Diff(c.ys)))), c.xs[|c.xs| - 1] - c.xs[0], threeEighths);
    }
  }

  /** Every estimate is the negation of a product of non-negative factors, so it is never positive. */
  lemma ErrorEstimatesNonPositive(c: Calculator)
    requires c.Valid()
    ensures TrapezoidalSpec(c).errorEstimate.Some? ==> TrapezoidalSpec(c).errorEstimate.value <= 0.0
    ensures Simpson13Spec(c).errorEstimate.Some? ==> Simpson13Spec(c).errorEstimate.value <= 0.0
    ensures Simpson38Spec(c).errorEstimate.Some? ==> Simpson38Spec(c).errorEstimate.value <= 0.0
  {
    TrapezoidalShape(c);
    Simpson13Shape(c);
    Simpson38Shape(c);
    TrapezoidalErrorNonPositive(c);
    SimpsonErrorNonPositive(c, false);
    SimpsonErrorNonPositive(c, true);
  }

  // ---------------------------------------------------------------------------
  // Method names

  /** Simpson's 1/3 rule: adaptive exactly on irregular spacing, plain exactly when n is even, hybrid otherwise. */
  lemma Simpson13MethodNames(c: Calculator)
    requires c.Valid()
    ensures Simpson13Spec(c).methodName == Simpson13AdaptiveName <==> !Uniform(c)
    ensures Simpson13Spec(c).methodName == Simpson13Name <==> Uniform(c) && c.N() % 2 == 0
    ensures Simpson13Spec(c).methodName == Simpson13HybridName <==> Uniform(c) && c.N() % 2 == 1
  {
    Simpson13Shape(c);
    assert |Simpson13Name| == 18 && |Simpson13AdaptiveName| == 29 && |Simpson13HybridName| == 36;
  }

  /** Simpson's 3/8 rule: adaptive exactly on irregular spacing, plain exactly when 3 divides n, hybrid otherwise. */
  lemma Simpson38MethodNames(c: Calculator)
    requires c.Valid()
    ensures Simpson38Spec(c).methodName == Simpson38AdaptiveName <==> !Uniform(c)
    ensures Simpson38Spec(c).methodName == Simpson38Name <==> Uniform(c) && c.N() % 3 == 0
    ensures Simpson38Spec(c).methodName == Simpson38HybridName <==> Uniform(c) && c.N() % 3 != 0
  {
    Simpson38Shape(c);
    assert |Simpson38Name| == 18 && |Simpson38AdaptiveName| == 29 && |Simpson38HybridName| == 36;
  }

  // ---------------------------------------------------------------------------
  // Simpson 1/3 on uniform spacing

  lemma EvenPartValue(c: Calculator)
    requires c.Valid() && c.N() % 2 == 0
    ensures var h := Diff(c.xs)[0]; var v := Simpson13EvenPart(c).value;
      v == (h / 3.0) * Closed13(c.ys, c.N()) &&
      v == (h / 3.0) * Weighted13(c.ys, c.N(), c.N() + 1) &&
      v == (h / 3.0) * PanelSum13(c.ys, c.N() / 2)
  {
    SliceIsClosed13(c.ys);
    Closed13ByWeights(c.ys, c.N());
    Closed13Panels(c.ys, c.N() / 2);
  }

  /** n even: h/3 times the composite 1/3 weights 1, 4, 2, ..., 4, 1, i.e. the sum of n/2 panels. */
  lemma Simpson13UniformEven(c: Calculator)
    requires c.Valid() && Uniform(c) && c.N() % 2 == 0
    ensures var h := Diff(c.xs)[0]; var v := Simpson13Spec(c).value;
      v == (h / 3.0) * Closed13(c.ys, c.N()) &&
      v == (h / 3.0) * Weighted13(c.ys, c.N(), c.N() + 1) &&
      v == (h / 3.0) * PanelSum13(c.ys, c.N() / 2)
  {
    Simpson13Shape(c);
    EvenPartValue(c);
  }

  /**
   * n odd: as written, (h/3)·(the panels of y[:n]) plus the last trapezoid from
   * three intervals on, and (h/3)·2·y0 plus the trapezoid at n = 1; the intended
   * hybrid is the panel sum (none at n = 1) plus the trapezoid throughout.
   */
  lemma OddPartValue(c: Calculator)
    requires c.Valid() && c.N() % 2 == 1
    ensures var h := Diff(c.xs)[0]; var n := c.N(); var y := c.ys;
      n > 1 ==>
        Simpson13OddPartAsWritten(c).value == (h / 3.0) * PanelSum13(y, (n - 1) / 2) + (h / 2.0) * (y[n - 1] + y[n])
    ensures var h := Diff(c.xs)[0]; var y := c.ys;
      c.N() == 1 ==> Simpson13OddPartAsWritten(c).value == (h / 3.0) * (2.0 * y[0]) + (h / 2.0) * (y[0] + y[1])
    ensures var h := Diff(c.xs)[0]; var n := c.N(); var y := c.ys;
      Simpson13OddPart(c).value == (h / 3.0) * PanelSum13(y, (n - 1) / 2) + (h / 2.0) * (y[n - 1] + y[n])
  {
    if c.N() > 1 {
      OddHeadPanels(c.ys, c.N());
    } else {
      Simpson13TwoPointsAsWritten(c);
    }
  }

  /** The 1/3 formula on the points y[:n] (n odd, at least 3) is the sum of (n - 1)/2 panels. */
  lemma OddHeadPanels(y: seq<real>, n: nat)
    requires 1 < n < |y| && n % 2 == 1
    ensures SliceWeighted13(y[..n]) == PanelSum13(y, (n - 1) / 2)
  {
    var head := y[..n];
    SliceIsClosed13(head);
    SumsOfPrefix(y, n, n - 1);
    assert Closed13(head, n - 1) == Closed13(y, n - 1);
    Closed13Panels(y, (n - 1) / 2);
  }

  /**
   * n odd: the 1/3 rule on the first n - 1 intervals plus one trapezoid on the
   * last; at n = 1 the 1/3 part is still (h/3)·2·y0, as the source computes it.
   */
  lemma Simpson13UniformOdd(c: Calculator)
    requires c.Valid() && Uniform(c) && c.N() % 2 == 1
    ensures var h := Diff(c.xs)[0]; var n := c.N(); var y := c.ys;
      n > 1 ==> Simpson13Spec(c).value == (h / 3.0) * PanelSum13(y, (n - 1) / 2) + (h / 2.0) * (y[n - 1] + y[n])
    ensures var h := Diff(c.xs)[0]; var y := c.ys;
      c.N() == 1 ==> Simpson13Spec(c).value == (h / 3.0) * (2.0 * y[0]) + (h / 2.0) * (y[0] + y[1])
  {
    Simpson13Shape(c);
    OddPartValue(c);
  }

  /**
   * As written, two points on a uniform grid (n = 1) get a 1/3 part of
   * (h/3)·2·y0 on top of the single trapezoid; the corrected hybrid gives just the
   * trapezoid.
   */
  lemma Simpson13TwoPointsAsWritten(c: Calculator)
    requires c.Valid() && c.N() == 1
    ensures var h := Diff(c.xs)[0]; var y := c.ys;
      Simpson13OddPartAsWritten(c).value == (h / 3.0) * (2.0 * y[0]) + (h / 2.0) * (y[0] + y[1]) &&
      Simpson13OddPart(c).value == (h / 2.0) * (y[0] + y[1])
  {
    var head := c.ys[..1];
    assert SumOdd(head, 1) == 0.0 && SumEven(head, 0) == 0.0;
    assert SliceWeighted13(head) == 2.0 * c.ys[0];
  }

  /** Two points, x = [0, 1], y = [1, 1]: the exact integral is 1. */
  function TwoPointSample(): Calculator
  {
    Calculator([0.0, 1.0], [1.0, 1.0])
  }

  lemma TwoPointSampleIsUniform()
    ensures TwoPointSample().Valid() && TwoPointSample().N() == 1
    ensures Diff(TwoPointSample().xs) == [1.0] && Uniform(TwoPointSample())
  {
    var c := TwoPointSample();
    assert StepsUp(c.xs, 0);
    assert Diff(c.xs) == [1.0];
    assert [1.0][..0] == [];
  }

  /**
   * On the two-point sample the 1/3 rule returns 5/3, while the trapezoidal rule
   * and the corrected hybrid both give the exact 1.
   */
  lemma Simpson13TwoPointsCounterexample()
    ensures Simpson13OddPartAsWritten(TwoPointSample()).value == 5.0 / 3.0
    ensures Simpson13Spec(TwoPointSample()).value == 5.0 / 3.0
    ensures Simpson13OddPart(TwoPointSample()).value == 1.0
    ensures TrapezoidalSpec(TwoPointSample()).value == 1.0
  {
    var c := TwoPointSample();
    TwoPointSampleIsUniform();
    Simpson13TwoPointsAsWritten(c);
    Simpson13Shape(c);
    TrapezoidalShape(c);
    assert c.ys[1..1] == [];
    assert TrapezoidUniformPart(c).value == (1.0 / 2.0) * (1.0 + 2.0 * 0.0 + 1.0);
  }

  // ---------------------------------------------------------------------------
  // Simpson 3/8 on uniform spacing

  lemma PurePartValue(c: Calculator)
    requires c.Valid() && c.N() % 3 == 0
    ensures var h := Diff(c.xs)[0]; var v := Simpson38PurePart(c).value;
      v == (3.0 * h / 8.0) * Weighted38(c.ys, c.N(), c.N() + 1) &&
      v == (3.0 * h / 8.0) * PanelSum38(c.ys, c.N() / 3)
  {
    Closed38ByWeights(c.ys, c.N());
    Closed38Panels(c.ys, c.N() / 3);
  }

  /** n a multiple of 3: 3h/8 times the composite 3/8 weights 1, 3, 3, 2, ..., 3, 3, 1, i.e. n/3 panels. */
  lemma Simpson38UniformPure(c: Calculator)
    requires c.Valid() && Uniform(c) && c.N() % 3 == 0
    ensures var h := Diff(c.xs)[0]; var v := Simpson38Spec(c).value;
      v == (3.0 * h / 8.0) * Weighted38(c.ys, c.N(), c.N() + 1) &&
      v == (3.0 * h / 8.0) * PanelSum38(c.ys, c.N() / 3)
  {
    Simpson38Shape(c);
    PurePartValue(c);
  }

  /** The hybrid's 3/8 part: si/3 panels, or nothing when si = 0. */
  lemma Simpson38HeadValue(h: real, y: seq<real>, si: nat)
    requires si < |y| && si % 3 == 0
    ensures Simpson38Head(h, y, si).value == (3.0 * h / 8.0) * PanelSum38(y, si / 3)
  {
    if si > 0 {
      SumsOfPrefix(y, si + 1, si);
      assert Closed38(y[..si + 1], si) == Closed38(y, si);
      Closed38Panels(y, si / 3);
    }
  }

  lemma HybridPartValue(c: Calculator)
    requires c.Valid() && c.N() % 3 != 0
    ensures var h := Diff(c.xs)[0]; var n := c.N(); var si := n - n % 3;
      1 <= n - si <= 2 &&
      Simpson38HybridPart(c).value == (3.0 * h / 8.0) * PanelSum38(c.ys, si / 3) + UniformTrapSum(h, c.ys, si, n)
  {
    var n := c.N();
    var si := (n / 3) * 3;
    assert si == n - n % 3;
    Simpson38HeadValue(Diff(c.xs)[0], c.ys, si);
  }

  lemma HybridPartTrace(c: Calculator)
    requires c.Valid() && c.N() % 3 != 0
    ensures var h := Diff(c.xs)[0]; var n := c.N(); var si := n - n % 3; var p := Simpson38HybridPart(c);
      |p.steps| == n - si + 5 &&
      TailAreaSteps(p.steps[4..4 + (n - si)], h, c.ys, si)
  {
    var n := c.N();
    var y := c.ys;
    var h := Diff(c.xs)[0];
    var si := (n / 3) * 3;
    assert si == n - n % 3;
    var tail := TailTrace(h, y, si, n);
    TailTraceAt(h, y, si, n);
    var head := Simpson38Head(h, y, si);
    HeadOneStep(h, y, si);
    var prefix := [AllIntervalsEqual(h), IntervalCount(n, true), HybridSplit(si, n - si)] + head.steps;
    var tv := UniformTrapSum(h, y, si, n);
    var last := HybridTotal(head.value, tv, head.value + tv);
    assert Simpson38HybridPart(c).steps == prefix + tail + [last];
    MiddleSlice(prefix, tail, [last]);
  }

  /** The hybrid's 3/8 part always records exactly one step. */
  lemma HeadOneStep(h: real, y: seq<real>, si: nat)
    requires si < |y|
    ensures |Simpson38Head(h, y, si).steps| == 1
  {
  }

  /** The middle of a three-part concatenation is sliced out by the lengths of the first two parts. */
  lemma MiddleSlice<T>(a: seq<T>, b: seq<T>, c: seq<T>)
    ensures (a + b + c)[|a|..|a| + |b|] == b
  {
  }

  /**
   * n not a multiple of 3: the 3/8 rule on the first n - n % 3 intervals
   * (nothing when n < 3), then one trapezoid of width h for each of the 1 or 2
   * remaining intervals, each with its own step.
   */
  lemma Simpson38UniformHybrid(c: Calculator)
    requires c.Valid() && Uniform(c) && c.N() % 3 != 0
    ensures var h := Diff(c.xs)[0]; var n := c.N(); var si := n - n % 3; var r := Simpson38Spec(c);
      1 <= n - si <= 2 &&
      r.value == (3.0 * h / 8.0) * PanelSum38(c.ys, si / 3) + UniformTrapSum(h, c.ys, si, n) &&
      |r.steps| >= n - si + 5 &&
      TailAreaSteps(r.steps[4..4 + (n - si)], h, c.ys, si)
  {
    Simpson38Shape(c);
    HybridPartValue(c);
    HybridPartTrace(c);
    var n := c.N();
    PrefixSlice(Simpson38HybridPart(c).steps, ErrorTrace(SimpsonError(c, true)), 4, 4 + (n - (n - n % 3)));
  }

  // ---------------------------------------------------------------------------
  // The irregular branch

  /** The chunks a trace announces, in order: one per "Found evenly spaced chunk" step. */
  function Marks(steps: seq<Step>): seq<Chunk>
  {
    if |steps| == 0 then []
    else (if steps[0].ChunkFound? then [Chunk(steps[0].start, steps[0].end)] else []) + Marks(steps[1..])
  }

  lemma {:induction false} MarksAppend(a: seq<Step>, b: seq<Step>)
    ensures Marks(a + b) == Marks(a) + Marks(b)
    decreases |a|
  {
    if |a| == 0 {
      assert a + b == b;
    } else {
      assert (a + b)[0] == a[0];
      assert (a + b)[1..] == a[1..] + b;
      MarksAppend(a[1..], b);
    }
  }

  lemma {:induction false} MarksNone(a: seq<Step>)
    requires forall t :: 0 <= t < |a| ==> !a[t].ChunkFound?
    ensures Marks(a) == []
    decreases |a|
  {
    if |a| > 0 {
      MarksNone(a[1..]);
    }
  }

  /** A chunk's steps announce that chunk and nothing else. */
  lemma ChunkPartMarks(c: Calculator, g: nat, s: nat, e: nat)
    requires c.Valid() && s < e <= c.N()
    ensures Marks(ChunkPart(c, g, s, e).steps) == [Chunk(s, e)]
  {
    var w := Diff(c.xs);
    var p := ChunkPart(c, g, s, e);
    var tail := p.steps[1..];
    assert p.steps == [p.steps[0]] + tail;
    if !Eligible(g, e - s) {
      var trace := ChunkIntervalTrace(w, c.ys, s, s, e);
      ChunkIntervalTraceAt(w, c.ys, s, s, e);
      assert tail == trace + [ChunkTrapezoid(s, p.value)];
      assert forall t :: 0 <= t < |trace| ==> tail[t] == trace[t];
    }
    MarksNone(tail);
    MarksAppend([p.steps[0]], tail);
  }

  /** The scan from interval i announces exactly the chunks ChunksFrom finds. */
  lemma {:induction false} AdaptiveMarks(c: Calculator, g: nat, i: nat)
    requires c.Valid() && i <= c.N()
    ensures Marks(AdaptivePart(c, g, i).steps) == ChunksFrom(Diff(c.xs), i)
    decreases c.N() - i
  {
    if i < c.N() {
      var j := ChunkEnd(Diff(c.xs), i);
      AdaptiveMarks(c, g, j);
      ChunkPartMarks(c, g, i, j);
      MarksAppend(ChunkPart(c, g, i, j).steps, AdaptivePart(c, g, j).steps);
    }
  }

  /** The irregular branch announces exactly the chunks ChunksFrom finds. */
  lemma AdaptiveBranchMarks(c: Calculator, g: nat)
    requires c.Valid()
    ensures Marks(AdaptiveBranch(c, g).steps) == ChunksFrom(Diff(c.xs), 0)
  {
    var scan := AdaptivePart(c, g, 0);
    var intro := [AdaptiveApproach, IdentifyingChunks(g)];
    AdaptiveMarks(c, g, 0);
    MarksAppend(intro, scan.steps);
    MarksAppend(intro + scan.steps, [TotalResult(scan.value)]);
    MarksNone(intro);
    MarksNone([TotalResult(scan.value)]);
  }

  /**
   * On irregular spacing both Simpson rules announce the same chunks, in order;
   * they tile the intervals 0..n-1 contiguously without overlap, each is a run
   * of widths close to its first one, and there are at least two.
   */
  lemma AdaptiveChunksPartition(c: Calculator)
    requires c.Valid() && !Uniform(c)
    ensures var cs := Marks(Simpson13Spec(c).steps);
      cs == Marks(Simpson38Spec(c).steps) &&
      cs == ChunksFrom(Diff(c.xs), 0) &&
      Tiles(cs, 0, c.N()) && Runs(Diff(c.xs), cs) && |cs| >= 2
  {
    assert SimpsonError(c, false) == None && SimpsonError(c, true) == None;
    Simpson13Shape(c);
    Simpson38Shape(c);
    assert Simpson13Spec(c).steps == AdaptiveBranch(c, 2).steps;
    assert Simpson38Spec(c).steps == AdaptiveBranch(c, 3).steps;
    AdaptiveBranchMarks(c, 2);
    AdaptiveBranchMarks(c, 3);
    ChunksPartition(Diff(c.xs), 0);
    IrregularHasSeveralChunks(Diff(c.xs));
  }

  /**
   * Each chunk's steps: the chunk announcement, then either the grouped rule
   * (exactly when the chunk is eligible) or one trapezoid step per interval, in
   * order and with each interval's own width, followed by the chunk total.
   */
  lemma ChunkPartShape(c: Calculator, g: nat, s: nat, e: nat)
    requires c.Valid() && s < e <= c.N()
    ensures var p := ChunkPart(c, g, s, e); var w := Diff(c.xs);
      p.steps[0] == ChunkFound(s, e, w[s]) &&
      (Eligible(g, e - s) <==> p.steps[1].ChunkRule?) &&
      (Eligible(g, e - s) ==> |p.steps| == 2) &&
      (!Eligible(g, e - s) ==>
        |p.steps| == e - s + 2 &&
        ChunkAreaSteps(p.steps[1..e - s + 1], w, c.ys, s, s) &&
        p.steps[e - s + 1] == ChunkTrapezoid(s, p.value) &&
        p.value == WidthTrapSum(w, c.ys, s, e))
  {
    var w := Diff(c.xs);
    var p := ChunkPart(c, g, s, e);
    if !Eligible(g, e - s) {
      var trace := ChunkIntervalTrace(w, c.ys, s, s, e);
      ChunkIntervalTraceAt(w, c.ys, s, s, e);
      assert p.steps == [ChunkFound(s, e, w[s])] + trace + [ChunkTrapezoid(s, p.value)];
      assert p.steps[1..e - s + 1] == trace;
    }
  }

  /** Every chunk of cs misses the grouped rule's eligibility test. */
  predicate NoneEligible(g: nat, cs: seq<Chunk>)
  {
    forall k :: 0 <= k < |cs| ==> !Eligible(g, cs[k].end - cs[k].start)
  }

  lemma NoneEligibleTail(g: nat, cs: seq<Chunk>)
    requires |cs| > 0 && NoneEligible(g, cs)
    ensures !Eligible(g, cs[0].end - cs[0].start) && NoneEligible(g, cs[1..])
  {
    assert forall k :: 0 <= k < |cs| - 1 ==> cs[1..][k] == cs[k + 1];
  }

  /** With no eligible chunk, the scan from interval i adds one trapezoid per interval. */
  lemma {:induction false} AdaptiveIneligibleIsTrapezoid(c: Calculator, g: nat, i: nat)
    requires c.Valid() && i <= c.N()
    requires NoneEligible(g, ChunksFrom(Diff(c.xs), i))
    ensures AdaptivePart(c, g, i).value == WidthTrapSum(Diff(c.xs), c.ys, i, c.N())
    decreases c.N() - i
  {
    var w := Diff(c.xs);
    if i < c.N() {
      var j := ChunkEnd(w, i);
      var cs := ChunksFrom(w, i);
      assert cs == [Chunk(i, j)] + ChunksFrom(w, j);
      assert cs[1..] == ChunksFrom(w, j);
      NoneEligibleTail(g, cs);
      AdaptiveIneligibleIsTrapezoid(c, g, j);
      WidthTrapSplit(w, c.ys, i, j, c.N());
    }
  }

  /**
   * On irregular spacing a Simpson rule none of whose chunks is eligible
   * reduces to the trapezoidal rule.
   */
  lemma SimpsonFallsBackToTrapezoid(c: Calculator)
    requires c.Valid() && !Uniform(c)
    ensures NoneEligible(2, ChunksFrom(Diff(c.xs), 0)) ==> Simpson13Spec(c).value == TrapezoidalSpec(c).value
    ensures NoneEligible(3, ChunksFrom(Diff(c.xs), 0)) ==> Simpson38Spec(c).value == TrapezoidalSpec(c).value
  {
    if NoneEligible(2, ChunksFrom(Diff(c.xs), 0)) {
      AdaptiveIneligibleIsTrapezoid(c, 2, 0);
    }
    if NoneEligible(3, ChunksFrom(Diff(c.xs), 0)) {
      AdaptiveIneligibleIsTrapezoid(c, 3, 0);
    }
  }

  /**
   * The chunk formula applied to one eligible run covering the whole domain is
   * the uniform branch's pure rule: the two code paths agree.
   */
  lemma SingleRunMatchesUniform(c: Calculator, g: nat)
    requires c.Valid() && (g == 2 || g == 3) && Eligible(g, c.N())
    ensures g == 2 ==> ChunkPart(c, g, 0, c.N()).value == Simpson13EvenPart(c).value
    ensures g == 3 ==> ChunkPart(c, g, 0, c.N()).value == Simpson38PurePart(c).value
  {
    assert c.ys[0..c.N() + 1] == c.ys;
  }

  // ---------------------------------------------------------------------------
  // The sample data of the test suite

  /** The uniform sample: x = 0..4, y = (x + 1)². */
  function UniformSample(): Calculator
  {
    Calculator([0.0, 1.0, 2.0, 3.0, 4.0], [1.0, 4.0, 9.0, 16.0, 25.0])
  }

  lemma UniformSampleIsUniform()
    ensures UniformSample().Valid() && Diff(UniformSample().xs) == [1.0, 1.0, 1.0, 1.0]
    ensures Uniform(UniformSample()) && ExactlyUniform(UniformSample())
  {
    var c := UniformSample();
    assert forall i: nat :: i + 1 < |c.xs| ==> StepsUp(c.xs, i);
    DiffAt(c.xs);
    assert Diff(c.xs) == [1.0, 1.0, 1.0, 1.0];
    AllCloseEvery(Diff(c.xs), 1.0);
  }

  /** Trapezoidal rule on the uniform sample: 42. */
  lemma UniformSampleTrapezoidal()
    ensures TrapezoidalSpec(UniformSample()).value == 42.0
  {
    UniformSampleIsUniform();
    TrapezoidalIsIntervalSum(UniformSample());
  }

  /** Simpson's 1/3 rule on the uniform sample (n = 4, no hybrid): 124/3. */
  lemma UniformSampleSimpson13()
    ensures Simpson13Spec(UniformSample()).value == 124.0 / 3.0
  {
    UniformSampleIsUniform();
    Simpson13UniformEven(UniformSample());
  }

  /** Simpson's 3/8 rule on the uniform sample: 21 on the first 3 intervals plus a trapezoid of 20.5. */
  lemma UniformSampleSimpson38()
    ensures Simpson38Spec(UniformSample()).value == 41.5
    ensures Simpson38Spec(UniformSample()).methodName == Simpson38HybridName
  {
    UniformSampleIsUniform();
    Simpson38UniformHybrid(UniformSample());
    Simpson38MethodNames(UniformSample());
  }

  /** x = [0, 1, 2, 4], y = x²: trapezoidal 23; Simpson 1/3 8/3 + 20 on chunks [0, 2) and [2, 3); Simpson 3/8 23. */
  lemma IrregularScenario()
    ensures var c := Calculator([0.0, 1.0, 2.0, 4.0], [0.0, 1.0, 4.0, 16.0]);
      c.Valid() && !Uniform(c) &&
      ChunksFrom(Diff(c.xs), 0) == [Chunk(0, 2), Chunk(2, 3)] &&
      TrapezoidalSpec(c).value == 23.0 &&
      Simpson13Spec(c).value == 68.0 / 3.0 &&
      Simpson38Spec(c).value == 23.0
  {
    var c := Calculator([0.0, 1.0, 2.0, 4.0], [0.0, 1.0, 4.0, 16.0]);
    assert forall i: nat :: i + 1 < |c.xs| ==> StepsUp(c.xs, i);
    var w := Diff(c.xs);
    DiffAt(c.xs);
    assert w == [1.0, 1.0, 2.0];
    assert !IsClose(w[2], w[0], ALLCLOSE_ATOL);
    assert ChunkEnd(w, 0) == 2 by {
      assert SameChunk(w[1], w[0]) && !SameChunk(w[2], w[0]);
    }
    assert ChunkEnd(w, 2) == 3;
    assert ChunksFrom(w, 3) == [];
    assert ChunksFrom(w, 0) == [Chunk(0, 2), Chunk(2, 3)];
    TrapezoidalIsIntervalSum(c);
    SimpsonFallsBackToTrapezoid(c);
    assert AdaptivePart(c, 2, 3).value == 0.0;
    assert AdaptivePart(c, 2, 2).value == 20.0;
    assert ChunkPart(c, 2, 0, 2).value == 8.0 / 3.0 by {
      assert c.ys[0..3] == [0.0, 1.0, 4.0];
      assert SliceWeighted13([0.0, 1.0, 4.0]) == 8.0;
    }
  }
}

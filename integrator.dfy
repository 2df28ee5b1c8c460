/**
 * The function-handle integrator of core/methods.py: the interval [a, b] cut
 * into n equal subintervals, and the composite trapezoidal, Simpson 1/3 and
 * Simpson 3/8 rules in closed form on the sampled values. The integrand is a
 * total function value; floating-point rounding is not modelled.
 */
module CoreMethods {
  import opened Wrappers
  import opened Kernels

  /** The exceptions the integrator raises. */
  datatype IntegratorError =
    | ZeroIntervals               // ZeroDivisionError: the constructor divides by n == 0
    | NoPoints                    // IndexError: a negative n leaves no sample to read
    | OddIntervals                // ValueError from simpson_one_third
    | IntervalsNotMultipleOfThree // ValueError from simpson_three_eighths

  function ErrorMessage(e: IntegratorError): string
  {
    match e
    case ZeroIntervals => "float division by zero"
    case NoPoints => "list index out of range"
    case OddIntervals => "n must be even for Simpson\U{2019}s 1/3"
    case IntervalsNotMultipleOfThree => "n must be a multiple of 3 for Simpson\U{2019}s 3/8"
  }

  /** `[a + i * h for i in range(n + 1)]`: empty when n is negative. */
  function Partition(a: real, h: real, n: int): (xs: seq<real>)
    ensures |xs| == if n < 0 then 0 else n + 1
    decreases if n < 0 then 0 else n + 1
  {
    if n < 0 then [] else Partition(a, h, n - 1) + [a + (n as real) * h]
  }

  /** Grid point i is a + i·h. */
  lemma {:induction false} PartitionAt(a: real, h: real, n: int)
    ensures forall i :: 0 <= i < |Partition(a, h, n)| ==> Partition(a, h, n)[i] == a + (i as real) * h
    decreases if n < 0 then 0 else n + 1
  {
    if n >= 0 {
      PartitionAt(a, h, n - 1);
    }
  }

  /** An integrator after construction: the step and the grid the constructor stores. */
  datatype Integrator = Integrator(f: real -> real, a: real, b: real, n: int, h: real, xs: seq<real>)
  {
    predicate Valid()
    {
      n != 0 && h == (b - a) / (n as real) && xs == Partition(a, h, n)
    }
  }

  /** `Integrator(f, a, b, n)`: the constructor fails only on the division by n == 0. */
  function NewIntegrator(f: real -> real, a: real, b: real, n: int): (r: Result<Integrator, IntegratorError>)
    ensures r.Failure? <==> n == 0
    ensures r.Failure? ==> r.error == ZeroIntervals
    ensures r.Success? ==> r.value.Valid() && r.value.a == a && r.value.b == b && r.value.n == n
  {
    if n == 0 then Failure(ZeroIntervals)
    else
      var h := (b - a) / (n as real);
      Success(Integrator(f, a, b, n, h, Partition(a, h, n)))
  }

  /** `_compute_ys`: the integrand sampled at every grid point. */
  function ComputeYs(f: real -> real, xs: seq<real>): (ys: seq<real>)
    ensures |ys| == |xs|
  {
    if |xs| == 0 then [] else ComputeYs(f, xs[..|xs| - 1]) + [f(xs[|xs| - 1])]
  }

  /** Sample i is the integrand at grid point i. */
  lemma {:induction false} ComputeYsAt(f: real -> real, xs: seq<real>)
    ensures forall i :: 0 <= i < |xs| ==> ComputeYs(f, xs)[i] == f(xs[i])
  {
    if |xs| > 0 {
      var init := xs[..|xs| - 1];
      ComputeYsAt(f, init);
      assert forall i :: 0 <= i < |init| ==> init[i] == xs[i];
    }
  }

  /** The rule-specific entries of the steps dictionary. */
  datatype Detail =
    | TrapezoidDetail(weightedSum: real)
    | Simpson13Detail(oddSum: real, evenSum: real)
    | Simpson38Detail(sumMod3: real, sumMul3: real)

  /** `_build_steps`: h, the grid, the samples, the rule's partial sums and its formula. */
  datatype StepRecord = StepRecord(h: real, xValues: seq<real>, yValues: seq<real>, detail: Detail, formula: string)

  /** What a rule returns: the estimate, and the steps only when show_steps was set. */
  datatype Outcome = Outcome(value: real, steps: Option<StepRecord>)

  const TrapezoidFormula: string := "h * ( (f(a)+f(b))/2 + sum(f interior) )"
  const Simpson13Formula: string := "h/3*(f(a)+f(b)+4*odd_sum+2*even_sum)"
  const Simpson38Formula: string := "3h/8*(f(a)+f(b)+3*sum_mod3+2*sum_mul3)"

  function Record(it: Integrator, ys: seq<real>, detail: Detail, formula: string, showSteps: bool): Option<StepRecord>
  {
    if showSteps then Some(StepRecord(it.h, it.xs, ys, detail, formula)) else None
  }

  /** The samples of a valid integrator are absent (n < 0) or at least two. */
  lemma SampleCount(it: Integrator)
    requires it.Valid()
    ensures |ComputeYs(it.f, it.xs)| == if it.n < 0 then 0 else it.n + 1
    ensures it.n > 0 ==> |ComputeYs(it.f, it.xs)| >= 2
  {
  }

  /** `trapezoidal`: h times half the end samples plus the interior samples. */
  function Trapezoidal(it: Integrator, showSteps: bool): (r: Result<Outcome, IntegratorError>)
    requires it.Valid()
    ensures r.Failure? <==> it.n < 0
    ensures r.Success? ==> (r.value.steps.Some? <==> showSteps)
    ensures r.Success? && showSteps ==>
      r.value.steps.value.xValues == it.xs && r.value.steps.value.yValues == ComputeYs(it.f, it.xs)
  {
    SampleCount(it);
    var ys := ComputeYs(it.f, it.xs);
    if |ys| == 0 then Failure(NoPoints)
    else
      var weighted := (ys[0] + ys[|ys| - 1]) / 2.0 + Sum(ys[1..|ys| - 1]);
      Success(Outcome(it.h * weighted, Record(it, ys, TrapezoidDetail(weighted), TrapezoidFormula, showSteps)))
  }

  /** (h/3)·(ys[0] + ys[-1] + 4·odd_sum + 2·even_sum), the sums running over the indices below the last. */
  function OneThirdValue(h: real, ys: seq<real>): real
    requires |ys| >= 1
  {
    (h / 3.0) * (ys[0] + ys[|ys| - 1] + 4.0 * SumOdd(ys, |ys| - 1) + 2.0 * SumEven(ys, |ys| - 1))
  }

  /** (3h/8)·(ys[0] + ys[-1] + 3·sum_mod3 + 2·sum_mul3), the sums running over the indices below the last. */
  function ThreeEighthsValue(h: real, ys: seq<real>): real
    requires |ys| >= 1
  {
    (3.0 * h / 8.0) * (ys[0] + ys[|ys| - 1] + 3.0 * SumNotMul3(ys, |ys| - 1) + 2.0 * SumMul3(ys, |ys| - 1))
  }

  /** `simpson_one_third`: the parity guard comes before the integrand is sampled. */
  function SimpsonOneThird(it: Integrator, showSteps: bool): (r: Result<Outcome, IntegratorError>)
    requires it.Valid()
    ensures r == Failure(OddIntervals) <==> it.n % 2 != 0
    ensures r.Failure? <==> it.n % 2 != 0 || it.n < 0
    ensures r.Success? ==> (r.value.steps.Some? <==> showSteps)
  {
    if it.n % 2 != 0 then Failure(OddIntervals)
    else
      SampleCount(it);
      var ys := ComputeYs(it.f, it.xs);
      if |ys| == 0 then Failure(NoPoints)
      else
        var odd := SumOdd(ys, it.n);
        var even := SumEven(ys, it.n);
        Success(Outcome(OneThirdValue(it.h, ys), Record(it, ys, Simpson13Detail(odd, even), Simpson13Formula, showSteps)))
  }

  /** `simpson_three_eighths`: the divisibility guard comes before the integrand is sampled. */
  function SimpsonThreeEighths(it: Integrator, showSteps: bool): (r: Result<Outcome, IntegratorError>)
    requires it.Valid()
    ensures r == Failure(IntervalsNotMultipleOfThree) <==> it.n % 3 != 0
    ensures r.Failure? <==> it.n % 3 != 0 || it.n < 0
    ensures r.Success? ==> (r.value.steps.Some? <==> showSteps)
  {
    if it.n % 3 != 0 then Failure(IntervalsNotMultipleOfThree)
    else
      SampleCount(it);
      var ys := ComputeYs(it.f, it.xs);
      if |ys| == 0 then Failure(NoPoints)
      else
        var mod3 := SumNotMul3(ys, it.n);
        var mul3 := SumMul3(ys, it.n);
        Success(Outcome(ThreeEighthsValue(it.h, ys), Record(it, ys, Simpson38Detail(mod3, mul3), Simpson38Formula, showSteps)))
  }

  /** The panel width times n spans [a, b] exactly. */
  lemma StepSpansInterval(a: real, b: real, n: int)
    requires n != 0
    ensures (n as real) * ((b - a) / (n as real)) == b - a
  {
  }

  /**
   * The grid starts at a and, for n >= 1, ends exactly at b; it rises
   * strictly when a < b, and consecutive points are one step apart.
   */
  lemma PartitionEnds(it: Integrator)
    requires it.Valid() && it.n >= 1
    ensures |it.xs| == it.n + 1
    ensures it.xs[0] == it.a && it.xs[it.n] == it.b
    ensures forall i :: 0 <= i < it.n ==> it.xs[i + 1] - it.xs[i] == it.h
    ensures it.a < it.b ==> it.h > 0.0 && forall i :: 0 <= i < it.n ==> it.xs[i] < it.xs[i + 1]
  {
    StepSpansInterval(it.a, it.b, it.n);
    PartitionAt(it.a, it.h, it.n);
    assert it.xs[it.n] == it.a + (it.n as real) * it.h;
    forall i | 0 <= i < it.n
      ensures it.xs[i + 1] - it.xs[i] == it.h
    {
      assert it.xs[i + 1] == it.a + (i as real) * it.h + it.h;
    }
  }

  /** h·((y0 + yn)/2 + S) is (h/2)·(y0 + 2S + yn): the two trapezoid forms. */
  lemma HalfWeights(h: real, first: real, last: real, s: real)
    ensures h * ((first + last) / 2.0 + s) == (h / 2.0) * (first + 2.0 * s + last)
  {
  }

  /**
   * The trapezoidal estimate is the sum of the n trapezoids (h/2)(y[i] + y[i+1]);
   * it fails exactly when n is negative, and carries steps exactly when asked.
   */
  lemma TrapezoidalIsSumOfTrapezoids(it: Integrator, showSteps: bool)
    requires it.Valid()
    ensures Trapezoidal(it, showSteps).Failure? <==> it.n < 0
    ensures Trapezoidal(it, showSteps).Failure? ==> Trapezoidal(it, showSteps).error == NoPoints
    ensures Trapezoidal(it, showSteps).Success? ==>
      Trapezoidal(it, showSteps).value.value == UniformTrapSum(it.h, ComputeYs(it.f, it.xs), 0, it.n) &&
      (Trapezoidal(it, showSteps).value.steps.Some? <==> showSteps)
  {
    SampleCount(it);
    var ys := ComputeYs(it.f, it.xs);
    if it.n > 0 {
      HalfWeights(it.h, ys[0], ys[|ys| - 1], Sum(ys[1..|ys| - 1]));
      TrapezoidClosedIsIntervalSum(it.h, ys);
    }
  }

  /**
   * The Simpson guards reject a bad n before sampling, whatever the integrand;
   * an admissible negative n fails on the empty sample list.
   */
  lemma SimpsonGuards(it: Integrator, showSteps: bool)
    requires it.Valid()
    ensures it.n % 2 != 0 ==> SimpsonOneThird(it, showSteps) == Failure(OddIntervals)
    ensures it.n % 2 == 0 && it.n < 0 ==> SimpsonOneThird(it, showSteps) == Failure(NoPoints)
    ensures it.n % 2 == 0 && it.n > 0 ==> SimpsonOneThird(it, showSteps).Success?
    ensures it.n % 3 != 0 ==> SimpsonThreeEighths(it, showSteps) == Failure(IntervalsNotMultipleOfThree)
    ensures it.n % 3 == 0 && it.n < 0 ==> SimpsonThreeEighths(it, showSteps) == Failure(NoPoints)
    ensures it.n % 3 == 0 && it.n > 0 ==> SimpsonThreeEighths(it, showSteps).Success?
  {
    SampleCount(it);
  }

  /** The Simpson 1/3 closed form over 2p intervals is the sum of its p panels. */
  lemma OneThirdValuePanels(h: real, ys: seq<real>)
    requires |ys| >= 3 && (|ys| - 1) % 2 == 0
    ensures OneThirdValue(h, ys) == (h / 3.0) * Closed13(ys, |ys| - 1)
    ensures OneThirdValue(h, ys) == (h / 3.0) * PanelSum13(ys, (|ys| - 1) / 2)
  {
    var p := (|ys| - 1) / 2;
    assert 2 * p == |ys| - 1;
    Closed13Panels(ys, p);
  }

  /** The Simpson 3/8 closed form over 3p intervals is the sum of its p panels. */
  lemma ThreeEighthsValuePanels(h: real, ys: seq<real>)
    requires |ys| >= 4 && (|ys| - 1) % 3 == 0
    ensures ThreeEighthsValue(h, ys) == (3.0 * h / 8.0) * Closed38(ys, |ys| - 1)
    ensures ThreeEighthsValue(h, ys) == (3.0 * h / 8.0) * PanelSum38(ys, (|ys| - 1) / 3)
  {
    var p := (|ys| - 1) / 3;
    assert 3 * p == |ys| - 1;
    Closed38Panels(ys, p);
  }

  /**
   * For an even positive n the Simpson 1/3 estimate is the sum of the n/2
   * panels (h/3)(y[2p] + 4y[2p+1] + y[2p+2]).
   */
  lemma SimpsonOneThirdIsSumOfPanels(it: Integrator, showSteps: bool)
    requires it.Valid() && it.n > 0 && it.n % 2 == 0
    ensures SimpsonOneThird(it, showSteps).Success?
    ensures SimpsonOneThird(it, showSteps).value.value == (it.h / 3.0) * Closed13(ComputeYs(it.f, it.xs), it.n)
    ensures SimpsonOneThird(it, showSteps).value.value == (it.h / 3.0) * PanelSum13(ComputeYs(it.f, it.xs), it.n / 2)
    ensures SimpsonOneThird(it, showSteps).value.steps.Some? <==> showSteps
  {
    SampleCount(it);
    OneThirdValuePanels(it.h, ComputeYs(it.f, it.xs));
  }

  /**
   * For a positive multiple of 3 the Simpson 3/8 estimate is the sum of the
   * n/3 panels (3h/8)(y[3p] + 3y[3p+1] + 3y[3p+2] + y[3p+3]).
   */
  lemma SimpsonThreeEighthsIsSumOfPanels(it: Integrator, showSteps: bool)
    requires it.Valid() && it.n > 0 && it.n % 3 == 0
    ensures SimpsonThreeEighths(it, showSteps).Success?
    ensures SimpsonThreeEighths(it, showSteps).value.value == (3.0 * it.h / 8.0) * Closed38(ComputeYs(it.f, it.xs), it.n)
    ensures SimpsonThreeEighths(it, showSteps).value.value == (3.0 * it.h / 8.0) * PanelSum38(ComputeYs(it.f, it.xs), it.n / 3)
    ensures SimpsonThreeEighths(it, showSteps).value.steps.Some? <==> showSteps
  {
    SampleCount(it);
    ThreeEighthsValuePanels(it.h, ComputeYs(it.f, it.xs));
  }

  /** The steps record echoes the grid and the samples it was computed from. */
  lemma StepsEchoGrid(it: Integrator)
    requires it.Valid() && it.n > 0
    ensures Trapezoidal(it, true).Success? && Trapezoidal(it, true).value.steps.Some?
    ensures Trapezoidal(it, true).value.steps.value.h == it.h
    ensures Trapezoidal(it, true).value.steps.value.xValues == it.xs
    ensures Trapezoidal(it, true).value.steps.value.yValues == ComputeYs(it.f, it.xs)
  {
    SampleCount(it);
  }
}

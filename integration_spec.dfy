/**
 * Data model and specification of IntegrationCalculator
 * (apps/calculator/utils/integration_methods.py).
 *
 * A calculator holds validated sample points; each rule returns a value, an
 * ordered derivation trace, an optional error estimate and a method name. The
 * trace is a sequence of abstract `Step` events, one per `steps.append` of the
 * source, carrying the numbers the text would show (the `:.6f` formatting is not
 * modelled). The functions below define, branch by branch, what each rule
 * returns; IntegrationMethods computes the same results with the source's loops.
 */
module IntegrationSpec {
  import opened Wrappers
  import opened Kernels
  import opened Chunks

  // ---------------------------------------------------------------------------
  // Samples and validation (__init__ / validate_data)

  datatype CalcError =
    | LengthMismatch
    | TooFewPoints
    | NotAscending
    | UnknownMethod(name: string)

  function ErrorMessage(e: CalcError): string
  {
    match e
    case LengthMismatch => "X and Y values must have the same length"
    case TooFewPoints => "At least 2 data points are required"
    case NotAscending => "X values must be in ascending order"
    case UnknownMethod(name) => "Unknown method: " + name
  }

  /** x[i] <= x[i+1]. */
  predicate StepsUp(xs: seq<real>, i: nat)
    requires i + 1 < |xs|
  {
    xs[i] <= xs[i + 1]
  }

  /** x is non-decreasing: `np.all(x[:-1] <= x[1:])`. Equal neighbours are allowed. */
  predicate Ascending(xs: seq<real>)
  {
    forall i: nat :: i + 1 < |xs| ==> StepsUp(xs, i)
  }

  /** The sample points an IntegrationCalculator holds once constructed. */
  datatype Calculator = Calculator(xs: seq<real>, ys: seq<real>)
  {
    predicate Valid()
    {
      |xs| == |ys| && |xs| >= 2 && Ascending(xs)
    }

    /** The number of intervals, `self.n`. */
    function N(): nat
      requires Valid()
    {
      |xs| - 1
    }
  }

  /** `IntegrationCalculator(x, y)`: the constructor and its validation, in the source's order. */
  function NewCalculator(xs: seq<real>, ys: seq<real>): (r: Result<Calculator, CalcError>)
    ensures |xs| != |ys| ==> r == Failure(LengthMismatch)
    ensures |xs| == |ys| && |xs| < 2 ==> r == Failure(TooFewPoints)
    ensures |xs| == |ys| && |xs| >= 2 && !Ascending(xs) ==> r == Failure(NotAscending)
    ensures r.Success? <==> Calculator(xs, ys).Valid()
    ensures r.Success? ==> r.value == Calculator(xs, ys)
  {
    if |xs| != |ys| then Failure(LengthMismatch)
    else if |xs| < 2 then Failure(TooFewPoints)
    else if !Ascending(xs) then Failure(NotAscending)
    else Success(Calculator(xs, ys))
  }

  /** `np.diff(s)`: consecutive differences; on x these are the interval widths. */
  function Diff(s: seq<real>): (d: seq<real>)
    ensures |d| == if |s| == 0 then 0 else |s| - 1
  {
    if |s| <= 1 then [] else Diff(s[..|s| - 1]) + [s[|s| - 1] - s[|s| - 2]]
  }

  lemma {:induction false} DiffAt(s: seq<real>)
    ensures forall i :: 0 <= i < |Diff(s)| ==> Diff(s)[i] == s[i + 1] - s[i]
    decreases |s|
  {
    if |s| > 1 {
      DiffAt(s[..|s| - 1]);
    }
  }

  /** The rules' test `np.allclose(h_values, h_values[0])`. */
  predicate Uniform(c: Calculator)
    requires c.Valid()
  {
    var w := Diff(c.xs);
    AllClose(w, w[0])
  }

  // ---------------------------------------------------------------------------
  // Results

  datatype Step =
    | IntervalWidth(h: real)
    | MiddleTerms(doubledSum: real)
    | TrapezoidFormula(h: real, first: real, doubledSum: real, last: real, result: real)
    | UnequalIntervals
    | IntervalArea(interval: nat, width: real, left: real, right: real, area: real)
    | TotalArea(result: real)
    | AllIntervalsEqual(h: real)
    | IntervalCount(n: nat, hybrid: bool)
    | FirstLastTerms(first: real, last: real, sum: real)
    | WeightedTerms(coefficient: nat, product: real)
    | ApplyFormula(h: real, weightedSum: real, result: real)
    | HybridSplit(ruleIntervals: nat, trapezoidIntervals: nat)
    | RulePart(weightedSum: real, result: real)
    | EmptyRulePart
    | TrapezoidPart(h: real, left: real, right: real, result: real)
    | HybridTotal(rulePart: real, trapezoidPart: real, result: real)
    | AdaptiveApproach
    | IdentifyingChunks(groupSize: nat)
    | ChunkFound(start: nat, end: nat, h: real)
    | ChunkRule(start: nat, h: real, weightedSum: real, result: real)
    | ChunkInterval(start: nat, interval: nat, width: real, left: real, right: real, area: real)
    | ChunkTrapezoid(start: nat, result: real)
    | TotalResult(result: real)
    | ErrorEstimate(estimate: real)

  /** The dictionary a rule returns: 'result', 'steps', 'error_estimate', 'method_name'. */
  datatype RuleResult = RuleResult(value: real, steps: seq<Step>, errorEstimate: Option<real>, methodName: string)

  /** The value and the trace of one branch of a rule. */
  datatype Part = Part(value: real, steps: seq<Step>)

  const TrapezoidalName: string := "Trapezoidal Rule"
  const Simpson13Name: string := "Simpson's 1/3 Rule"
  const Simpson13HybridName: string := "Simpson's 1/3 + Trapezoidal (Hybrid)"
  const Simpson13AdaptiveName: string := "Simpson's 1/3 Rule (Adaptive)"
  const Simpson38Name: string := "Simpson's 3/8 Rule"
  const Simpson38HybridName: string := "Simpson's 3/8 + Trapezoidal (Hybrid)"
  const Simpson38AdaptiveName: string := "Simpson's 3/8 Rule (Adaptive)"

  // ---------------------------------------------------------------------------
  // Error estimates

  /** `np.max(np.abs(s))`. */
  function MaxAbs(s: seq<real>): real
    requires |s| > 0
  {
    if |s| == 1 then Abs(s[0])
    else
      var rest := MaxAbs(s[..|s| - 1]);
      if rest < Abs(s[|s| - 1]) then Abs(s[|s| - 1]) else rest
  }

  /** MaxAbs is the largest magnitude in s, and it is attained. */
  lemma {:induction false} MaxAbsIsMaximum(s: seq<real>)
    requires |s| > 0
    ensures forall i :: 0 <= i < |s| ==> Abs(s[i]) <= MaxAbs(s)
    ensures exists i :: 0 <= i < |s| && MaxAbs(s) == Abs(s[i])
  {
    if |s| == 1 {
      assert MaxAbs(s) == Abs(s[0]);
    } else {
      var init := s[..|s| - 1];
      MaxAbsIsMaximum(init);
      var m := MaxAbs(init);
      var last := Abs(s[|s| - 1]);
      assert MaxAbs(s) == if m < last then last else m;
      forall i | 0 <= i < |s|
        ensures Abs(s[i]) <= MaxAbs(s)
      {
        if i < |s| - 1 {
          assert s[i] == init[i];
        }
      }
      var k :| 0 <= k < |init| && m == Abs(init[k]);
      assert init[k] == s[k];
      if m < last {
        assert MaxAbs(s) == Abs(s[|s| - 1]);
      } else {
        assert MaxAbs(s) == Abs(s[k]);
      }
    }
  }

  /** Trapezoidal error estimate: -(h³/12)·max|Δ²y|·n, when uniform with more than 2 points. */
  function TrapezoidalError(c: Calculator): (r: Option<real>)
    requires c.Valid()
    ensures r.Some? <==> |c.xs| > 2 && Uniform(c)
  {
    if |c.xs| > 2 && Uniform(c) then
      var second := Diff(Diff(c.ys));
      if |second| > 0 then
        Some(TrapezoidalEstimate(Diff(c.xs)[0], second, c.N()))
      else None
    else None
  }

  /** -(h³/12)·max|Δ²y|·n. */
  function TrapezoidalEstimate(h: real, second: seq<real>, n: nat): real
    requires |second| > 0
  {
    -(h * h * h / 12.0) * MaxAbs(second) * (n as real)
  }

  /**
   * Simpson error estimate: -(h⁵/90) (1/3 rule) or -(3h⁵/80) (3/8 rule), times
   * max|Δ⁴y|·(x[-1] - x[0]), when uniform with more than 4 points.
   */
  function SimpsonError(c: Calculator, threeEighths: bool): (r: Option<real>)
    requires c.Valid()
    ensures r.Some? <==> |c.xs| > 4 && Uniform(c)
  {
    if |c.xs| > 4 && Uniform(c) then
      var fourth := Diff(Diff(Diff(Diff(c.ys))));
      if |fourth| > 0 then
        Some(SimpsonEstimate(Diff(c.xs)[0], fourth, c.xs[|c.xs| - 1] - c.xs[0], threeEighths))
      else None
    else None
  }

  /** -(3h⁵/80) (3/8 rule) or -(h⁵/90) (1/3 rule), times max|Δ⁴y| and the span of x. */
  function SimpsonEstimate(h: real, fourth: seq<real>, span: real, threeEighths: bool): real
    requires |fourth| > 0
  {
    var h5 := h * h * h * h * h;
    var scale := if threeEighths then -(3.0 * h5 / 80.0) else -(h5 / 90.0);
    scale * MaxAbs(fourth) * span
  }

  /** The "Error Estimate" step, present exactly when an estimate is. */
  function ErrorTrace(e: Option<real>): seq<Step>
  {
    if e.Some? then [ErrorEstimate(e.value)] else []
  }

  // ---------------------------------------------------------------------------
  // Per-interval trapezoid traces

  /** "Interval i+1: h_{i+1} = ..., Area = ..." for i in [lo, hi), each with its own width. */
  function IntervalTrace(w: seq<real>, y: seq<real>, lo: nat, hi: nat): seq<Step>
    requires |y| == |w| + 1 && lo <= hi <= |w|
    decreases hi
  {
    if hi == lo then []
    else IntervalTrace(w, y, lo, hi - 1) + [IntervalArea(hi - 1, w[hi - 1], y[hi - 1], y[hi], (w[hi - 1] / 2.0) * (y[hi - 1] + y[hi]))]
  }

  /** The 3/8 hybrid tail: one trapezoid of the common width h per interval in [lo, hi). */
  function TailTrace(h: real, y: seq<real>, lo: nat, hi: nat): seq<Step>
    requires lo <= hi < |y|
    decreases hi
  {
    if hi == lo then []
    else TailTrace(h, y, lo, hi - 1) + [IntervalArea(hi - 1, h, y[hi - 1], y[hi], (h / 2.0) * (y[hi - 1] + y[hi]))]
  }

  /** The trapezoids of an ineligible chunk that starts at s, for the intervals in [lo, hi). */
  function ChunkIntervalTrace(w: seq<real>, y: seq<real>, s: nat, lo: nat, hi: nat): seq<Step>
    requires |y| == |w| + 1 && lo <= hi <= |w|
    decreases hi
  {
    if hi == lo then []
    else
      var area := (w[hi - 1] / 2.0) * (y[hi - 1] + y[hi]);
      ChunkIntervalTrace(w, y, s, lo, hi - 1) + [ChunkInterval(s, hi - 1, w[hi - 1], y[hi - 1], y[hi], area)]
  }

  // ---------------------------------------------------------------------------
  // Trapezoidal rule

  /** Equal intervals: the closed form (h/2)(y0 + 2·Σ interior + yn) and its three steps. */
  function TrapezoidUniformPart(c: Calculator): Part
    requires c.Valid()
  {
    var h := Diff(c.xs)[0];
    var n := c.N();
    var y := c.ys;
    var doubled := 2.0 * Sum(y[1..n]);
    var result := TrapezoidClosed(h, y);
    Part(result, [IntervalWidth(h), MiddleTerms(doubled), TrapezoidFormula(h, y[0], doubled, y[n], result)])
  }

  /** Unequal intervals: one trapezoid per interval, each with its own width. */
  function TrapezoidIrregularPart(c: Calculator): Part
    requires c.Valid()
  {
    var w := Diff(c.xs);
    var total := WidthTrapSum(w, c.ys, 0, c.N());
    Part(total, [UnequalIntervals] + IntervalTrace(w, c.ys, 0, c.N()) + [TotalArea(total)])
  }

  function TrapezoidalPart(c: Calculator): Part
    requires c.Valid()
  {
    if Uniform(c) then TrapezoidUniformPart(c) else TrapezoidIrregularPart(c)
  }

  /** What `trapezoidal_rule` returns. */
  function TrapezoidalSpec(c: Calculator): RuleResult
    requires c.Valid()
  {
    var p := TrapezoidalPart(c);
    var e := TrapezoidalError(c);
    RuleResult(p.value, p.steps + ErrorTrace(e), e, TrapezoidalName)
  }

  // ---------------------------------------------------------------------------
  // Chunks of the irregular branch (group size g = 2 for 1/3, 3 for 3/8)

  /** A chunk gets the grouped rule exactly when its interval count is a positive multiple of g. */
  predicate Eligible(g: nat, count: int)
  {
    count >= g && g > 0 && count % g == 0
  }

  /** The grouped rule's weighted sum on the points s..e. */
  function ChunkWeighted(y: seq<real>, g: nat, s: nat, e: nat): real
    requires s < e < |y|
  {
    if g == 2 then SliceWeighted13(y[s..e + 1]) else Closed38(y[s..e + 1], e - s)
  }

  /** The grouped rule's scaling: h/3 for the 1/3 rule, 3h/8 for the 3/8 rule. */
  function Scaled(g: nat, h: real, weighted: real): real
  {
    if g == 2 then (h / 3.0) * weighted else (3.0 * h / 8.0) * weighted
  }

  /** One iteration of the outer scan: the chunk [s, e) and its contribution. */
  function ChunkPart(c: Calculator, g: nat, s: nat, e: nat): Part
    requires c.Valid() && s < e <= c.N()
  {
    var w := Diff(c.xs);
    var y := c.ys;
    if Eligible(g, e - s) then
      var weighted := ChunkWeighted(y, g, s, e);
      var v := Scaled(g, w[s], weighted);
      Part(v, [ChunkFound(s, e, w[s]), ChunkRule(s, w[s], weighted, v)])
    else
      var v := WidthTrapSum(w, y, s, e);
      Part(v, [ChunkFound(s, e, w[s])] + ChunkIntervalTrace(w, y, s, s, e) + [ChunkTrapezoid(s, v)])
  }

  /** The outer scan from interval i: chunk contributions added left to right, traces concatenated. */
  function AdaptivePart(c: Calculator, g: nat, i: nat): Part
    requires c.Valid() && i <= c.N()
    decreases c.N() - i
  {
    if i == c.N() then Part(0.0, [])
    else
      var j := ChunkEnd(Diff(c.xs), i);
      var here := ChunkPart(c, g, i, j);
      var rest := AdaptivePart(c, g, j);
      Part(here.value + rest.value, here.steps + rest.steps)
  }

  /** The irregular branch of either Simpson rule. */
  function AdaptiveBranch(c: Calculator, g: nat): Part
    requires c.Valid()
  {
    var scan := AdaptivePart(c, g, 0);
    Part(scan.value, [AdaptiveApproach, IdentifyingChunks(g)] + scan.steps + [TotalResult(scan.value)])
  }

  // ---------------------------------------------------------------------------
  // Simpson 1/3

  /** Equal intervals, n even: Simpson 1/3 on all the points. */
  function Simpson13EvenPart(c: Calculator): Part
    requires c.Valid()
  {
    var h := Diff(c.xs)[0];
    var n := c.N();
    var y := c.ys;
    var weighted := SliceWeighted13(y);
    var result := (h / 3.0) * weighted;
    Part(result,
         [AllIntervalsEqual(h), IntervalCount(n, false), FirstLastTerms(y[0], y[n], y[0] + y[n]),
          WeightedTerms(4, 4.0 * SumOdd(y, n + 1))]
         + (if n > 2 then [WeightedTerms(2, 2.0 * SumEven(y, n))] else [])
         + [ApplyFormula(h, weighted, result)])
  }

  /** Equal intervals, n odd: the 1/3 part on the points y[:-1] and a trapezoid on the last interval. */
  function OddHybrid(c: Calculator, weighted: real): Part
    requires c.Valid()
  {
    var h := Diff(c.xs)[0];
    var n := c.N();
    var y := c.ys;
    var head := (h / 3.0) * weighted;
    var tail := (h / 2.0) * (y[n - 1] + y[n]);
    Part(head + tail,
         [AllIntervalsEqual(h), IntervalCount(n, true), HybridSplit(n - 1, 1), RulePart(weighted, head),
          TrapezoidPart(h, y[n - 1], y[n], tail), HybridTotal(head, tail, head + tail)])
  }

  /**
   * The odd hybrid as the source writes it, and as the rule computes it: the 1/3
   * weighted sum of y[:-1] even when that slice is the single point y[0]
   * (n = 1), where it is 2·y[0]. From three intervals on it is the intended hybrid.
   */
  function Simpson13OddPartAsWritten(c: Calculator): (p: Part)
    requires c.Valid()
    ensures c.N() > 1 ==> p == Simpson13OddPart(c)
  {
    OddHybrid(c, SliceWeighted13(c.ys[..c.N()]))
  }

  /** The odd hybrid as intended: a 1/3 part over zero intervals contributes nothing. */
  function Simpson13OddPart(c: Calculator): Part
    requires c.Valid()
  {
    OddHybrid(c, if c.N() > 1 then SliceWeighted13(c.ys[..c.N()]) else 0.0)
  }

  function Simpson13Part(c: Calculator): Part
    requires c.Valid()
  {
    if !Uniform(c) then AdaptiveBranch(c, 2)
    else if c.N() % 2 == 0 then Simpson13EvenPart(c)
    else Simpson13OddPartAsWritten(c)
  }

  /** What `simpson_1_3_rule` returns. */
  function Simpson13Spec(c: Calculator): RuleResult
    requires c.Valid()
  {
    var p := Simpson13Part(c);
    var e := SimpsonError(c, false);
    var name := if !Uniform(c) then Simpson13AdaptiveName else if c.N() % 2 == 0 then Simpson13Name else Simpson13HybridName;
    RuleResult(p.value, p.steps + ErrorTrace(e), e, name)
  }

  // ---------------------------------------------------------------------------
  // Simpson 3/8

  /** Equal intervals, n a multiple of 3: Simpson 3/8 on all the points. */
  function Simpson38PurePart(c: Calculator): Part
    requires c.Valid()
  {
    var h := Diff(c.xs)[0];
    var n := c.N();
    var y := c.ys;
    var weighted := Closed38(y, n);
    var result := (3.0 * h / 8.0) * weighted;
    Part(result,
         [AllIntervalsEqual(h), IntervalCount(n, false), FirstLastTerms(y[0], y[n], y[0] + y[n])]
         + (if n > 1 then [WeightedTerms(3, 3.0 * SumNotMul3(y, n))] else [])
         + (if n > 3 then [WeightedTerms(2, 2.0 * SumMul3(y, n))] else [])
         + [ApplyFormula(h, weighted, result)])
  }

  /** The 3/8 part of the hybrid: the rule on the first si points' intervals, or nothing when si is 0. */
  function Simpson38Head(h: real, y: seq<real>, si: nat): Part
    requires si < |y|
  {
    if si > 0 then
      var weighted := Closed38(y[..si + 1], si);
      var head := (3.0 * h / 8.0) * weighted;
      Part(head, [RulePart(weighted, head)])
    else Part(0.0, [EmptyRulePart])
  }

  /** Equal intervals, n not a multiple of 3: Simpson 3/8 on (n // 3)·3 intervals, trapezoids on the rest. */
  function Simpson38HybridPart(c: Calculator): Part
    requires c.Valid()
  {
    var h := Diff(c.xs)[0];
    var n := c.N();
    var y := c.ys;
    var si := (n / 3) * 3;
    var head := Simpson38Head(h, y, si);
    var tail := UniformTrapSum(h, y, si, n);
    Part(head.value + tail,
         [AllIntervalsEqual(h), IntervalCount(n, true), HybridSplit(si, n - si)] + head.steps
         + TailTrace(h, y, si, n)
         + [HybridTotal(head.value, tail, head.value + tail)])
  }

  function Simpson38Part(c: Calculator): Part
    requires c.Valid()
  {
    if !Uniform(c) then AdaptiveBranch(c, 3)
    else if c.N() % 3 == 0 then Simpson38PurePart(c)
    else Simpson38HybridPart(c)
  }

  /** What `simpson_3_8_rule` returns. */
  function Simpson38Spec(c: Calculator): RuleResult
    requires c.Valid()
  {
    var p := Simpson38Part(c);
    var e := SimpsonError(c, true);
    var name := if !Uniform(c) then Simpson38AdaptiveName else if c.N() % 3 == 0 then Simpson38Name else Simpson38HybridName;
    RuleResult(p.value, p.steps + ErrorTrace(e), e, name)
  }

  // ---------------------------------------------------------------------------
  // Dispatch

  datatype Rule = Trapezoidal | Simpson13 | Simpson38

  /** The method identifiers, in the order compare_all_methods runs them. */
  const MethodIds: seq<string> := ["trapezoidal", "simpson_1_3", "simpson_3_8"]

  /** The `methods` table of calculate_method. */
  function RuleOf(id: string): (r: Option<Rule>)
    ensures r == Some(Trapezoidal) <==> id == "trapezoidal"
    ensures r == Some(Simpson13) <==> id == "simpson_1_3"
    ensures r == Some(Simpson38) <==> id == "simpson_3_8"
    ensures r.None? <==> id !in MethodIds
  {
    if id == "trapezoidal" then Some(Trapezoidal)
    else if id == "simpson_1_3" then Some(Simpson13)
    else if id == "simpson_3_8" then Some(Simpson38)
    else None
  }

  function RuleSpec(c: Calculator, rule: Rule): RuleResult
    requires c.Valid()
  {
    match rule
    case Trapezoidal => TrapezoidalSpec(c)
    case Simpson13 => Simpson13Spec(c)
    case Simpson38 => Simpson38Spec(c)
  }

  /** One entry of compare_all_methods: a result dictionary or `{'error': str(e)}`. */
  datatype Entry = Computed(result: RuleResult) | Failed(message: string)

  /** The try/except around each call in compare_all_methods. */
  function EntryOf(r: Result<RuleResult, CalcError>): Entry
  {
    match r
    case Success(v) => Computed(v)
    case Failure(e) => Failed(ErrorMessage(e))
  }
}

/**
 * The rules of IntegrationCalculator (apps/calculator/utils/integration_methods.py)
 * as the source runs them: accumulating loops over the samples that append to a
 * step list. Each rule is proved to return exactly what IntegrationSpec defines.
 */
module IntegrationMethods {
  import opened Wrappers
  import opened Kernels
  import opened Chunks
  import opened IntegrationSpec

  /** The inner scan `j = i + 1; while j < n and isclose(h_values[j], chunk_h): j += 1`. */
  method FindChunkEnd(w: seq<real>, i: nat) returns (j: nat)
    requires i < |w|
    ensures j == ChunkEnd(w, i)
  {
    j := i + 1;
    while j < |w| && SameChunk(w[j], w[i])
      invariant i < j <= |w|
      invariant forall t :: i < t < j ==> SameChunk(w[t], w[i])
      invariant ScanEnd(w, i, j) == ChunkEnd(w, i)
      decreases |w| - j
    {
      j := j + 1;
    }
  }

  /** The trapezoid loop of an ineligible chunk [s, e): one area per interval, each with its own width. */
  method TrapezoidChunk(w: seq<real>, y: seq<real>, s: nat, e: nat) returns (v: real, trace: seq<Step>)
    requires |y| == |w| + 1 && s < e <= |w|
    ensures v == WidthTrapSum(w, y, s, e)
    ensures trace == ChunkIntervalTrace(w, y, s, s, e)
  {
    v := 0.0;
    trace := [];
    for k := s to e
      invariant v == WidthTrapSum(w, y, s, k)
      invariant trace == ChunkIntervalTrace(w, y, s, s, k)
    {
      var area := (w[k] / 2.0) * (y[k] + y[k + 1]);
      v := v + area;
      trace := trace + [ChunkInterval(s, k, w[k], y[k], y[k + 1], area)];
    }
  }

  lemma GroupStep38(y: seq<real>, i: nat)
    requires i % 3 == 0 && i + 3 <= |y|
    ensures SumNotMul3(y, i + 3) == SumNotMul3(y, i) + y[i + 1] + y[i + 2]
    ensures SumMul3(y, i + 3) == SumMul3(y, i) + (if i > 0 then y[i] else 0.0)
  {
    assert SumNotMul3(y, i + 1) == SumNotMul3(y, i);
    if i > 0 {
      assert SumMul3(y, i + 1) == SumMul3(y, i) + y[i];
    }
  }

  /**
   * The 3/8 group loop `for k in range(0, m, 3)` over points y[0..m]: 3·y[k+1],
   * 3·y[k+2] and, except for the last group, 2·y[k+3], on top of y[0] + y[m].
   */
  method GroupedWeightedSum38(y: seq<real>) returns (ws: real)
    requires |y| >= 1 && (|y| - 1) % 3 == 0
    ensures ws == Closed38(y, |y| - 1)
  {
    var m := |y| - 1;
    ws := y[0] + y[m];
    var i := 0;
    while i < m
      invariant i <= m && i % 3 == 0
      invariant ws == y[0] + y[m] + 3.0 * SumNotMul3(y, i) + 2.0 * SumMul3(y, i) + (if 0 < i < m then 2.0 * y[i] else 0.0)
      decreases m - i
    {
      GroupStep38(y, i);
      if i + 1 < |y| {
        ws := ws + 3.0 * y[i + 1];
      }
      if i + 2 < |y| {
        ws := ws + 3.0 * y[i + 2];
      }
      if i + 3 < |y| - 1 {
        ws := ws + 2.0 * y[i + 3];
      }
      i := i + 3;
    }
  }

  /**
   * The "detailed step breakdown" loop of the pure 3/8 branch: the points with
   * coefficient 3 and those with coefficient 2, collected left to right.
   */
  method CoefficientTerms(y: seq<real>) returns (threes: seq<real>, twos: seq<real>)
    requires |y| >= 2
    ensures Sum(threes) == SumNotMul3(y, |y| - 1) && Sum(twos) == SumMul3(y, |y| - 1)
    ensures |threes| > 0 <==> |y| - 1 > 1
    ensures |twos| > 0 <==> |y| - 1 > 3
  {
    threes := [];
    twos := [];
    for i := 1 to |y| - 1
      invariant Sum(threes) == SumNotMul3(y, i) && Sum(twos) == SumMul3(y, i)
      invariant |threes| > 0 <==> i > 1
      invariant |twos| > 0 <==> i > 3
    {
      var pos := i % 3;
      if pos == 1 || pos == 2 {
        SumSnoc(threes, y[i]);
        threes := threes + [y[i]];
      } else if pos == 0 && i < |y| - 1 {
        SumSnoc(twos, y[i]);
        twos := twos + [y[i]];
      }
    }
  }

  /** The grouped rule on an eligible chunk: its points y[s..e] and their common width h. */
  method GroupedChunk(y: seq<real>, g: nat, h: real, s: nat, e: nat) returns (weighted: real, v: real)
    requires s < e < |y| && (g == 2 || g == 3) && Eligible(g, e - s)
    ensures weighted == ChunkWeighted(y, g, s, e)
    ensures v == Scaled(g, h, weighted)
  {
    var chunk := y[s..e + 1];
    if g == 2 {
      weighted := SliceWeighted13(chunk);
      v := (h / 3.0) * weighted;
    } else {
      weighted := GroupedWeightedSum38(chunk);
      v := (3.0 * h / 8.0) * weighted;
    }
  }

  /**
   * One iteration of the outer scan: find the chunk that starts at interval i,
   * then apply the grouped rule to it or one trapezoid per interval.
   */
  method ScanChunk(c: Calculator, g: nat, i: nat) returns (j: nat, p: Part)
    requires c.Valid() && (g == 2 || g == 3) && i < c.N()
    ensures j == ChunkEnd(Diff(c.xs), i)
    ensures p == ChunkPart(c, g, i, j)
  {
    var w := Diff(c.xs);
    var y := c.ys;
    j := FindChunkEnd(w, i);
    var count := j - i;
    var steps := [ChunkFound(i, j, w[i])];
    if count >= g && count % g == 0 {
      var weighted, chunkResult := GroupedChunk(y, g, w[i], i, j);
      p := Part(chunkResult, steps + [ChunkRule(i, w[i], weighted, chunkResult)]);
    } else {
      // the source's `elif chunk_intervals >= 1`, which every chunk meets
      var v, trace := TrapezoidChunk(w, y, i, j);
      p := Part(v, steps + trace + [ChunkTrapezoid(i, v)]);
    }
  }

  /** The irregular branch of either Simpson rule: the outer `while i < self.n` scan. */
  lemma AppendAssociative(a: seq<Step>, b: seq<Step>, d: seq<Step>)
    ensures a + (b + d) == (a + b) + d
  {
  }

  method AdaptiveScan(c: Calculator, g: nat) returns (p: Part)
    requires c.Valid() && (g == 2 || g == 3)
    ensures p == AdaptiveBranch(c, g)
  {
    var n := c.N();
    var intro := [AdaptiveApproach, IdentifyingChunks(g)];
    var steps := intro;
    var result := 0.0;
    var i := 0;
    while i < n
      invariant i <= n
      invariant result + AdaptivePart(c, g, i).value == AdaptivePart(c, g, 0).value
      invariant steps + AdaptivePart(c, g, i).steps == intro + AdaptivePart(c, g, 0).steps
      decreases n - i
    {
      var j, here := ScanChunk(c, g, i);
      ghost var rest := AdaptivePart(c, g, j);
      assert AdaptivePart(c, g, i) == Part(here.value + rest.value, here.steps + rest.steps);
      AppendAssociative(steps, here.steps, rest.steps);
      result := result + here.value;
      steps := steps + here.steps;
      i := j;
    }
    p := Part(result, steps + [TotalResult(result)]);
  }

  /** The unequal-interval branch of `trapezoidal_rule`: one trapezoid per interval. */
  method TrapezoidIrregular(c: Calculator) returns (p: Part)
    requires c.Valid()
    ensures p == TrapezoidIrregularPart(c)
  {
    var w := Diff(c.xs);
    var n := c.N();
    var y := c.ys;
    var steps := [UnequalIntervals];
    var result := 0.0;
    DiffAt(c.xs);
    for i := 0 to n
      invariant result == WidthTrapSum(w, y, 0, i)
      invariant steps == [UnequalIntervals] + IntervalTrace(w, y, 0, i)
    {
      var width := c.xs[i + 1] - c.xs[i];
      var area := (width / 2.0) * (y[i] + y[i + 1]);
      result := result + area;
      steps := steps + [IntervalArea(i, width, y[i], y[i + 1], area)];
    }
    p := Part(result, steps + [TotalArea(result)]);
  }

  /** The result dictionary: the branch's value and steps, then the error estimate and its step. */
  method Finish(p: Part, err: Option<real>, name: string) returns (r: RuleResult)
    ensures r == RuleResult(p.value, p.steps + ErrorTrace(err), err, name)
  {
    var steps := p.steps;
    if err.Some? {
      steps := steps + [ErrorEstimate(err.value)];
    }
    r := RuleResult(p.value, steps, err, name);
  }

  /** `trapezoidal_rule`. */
  method TrapezoidalRule(c: Calculator) returns (r: RuleResult)
    requires c.Valid()
    ensures r == TrapezoidalSpec(c)
  {
    var w := Diff(c.xs);
    var p: Part;
    if AllClose(w, w[0]) {
      p := TrapezoidUniformPart(c);
    } else {
      p := TrapezoidIrregular(c);
    }
    r := Finish(p, TrapezoidalError(c), TrapezoidalName);
  }

  /** `simpson_1_3_rule`. */
  method Simpson13Rule(c: Calculator) returns (r: RuleResult)
    requires c.Valid()
    ensures r == Simpson13Spec(c)
  {
    var w := Diff(c.xs);
    var n := c.N();
    var p: Part;
    if AllClose(w, w[0]) {
      if n % 2 == 0 {
        p := Simpson13EvenPart(c);
      } else {
        p := Simpson13OddPartAsWritten(c);
      }
    } else {
      p := AdaptiveScan(c, 2);
    }
    var name := if !AllClose(w, w[0]) then Simpson13AdaptiveName else if n % 2 == 0 then Simpson13Name else Simpson13HybridName;
    r := Finish(p, SimpsonError(c, false), name);
  }

  /** Simpson 3/8 on all points, n a multiple of 3: the group loop, then the coefficient breakdown. */
  method Simpson38Pure(c: Calculator) returns (p: Part)
    requires c.Valid() && c.N() % 3 == 0
    ensures p == Simpson38PurePart(c)
  {
    var h := Diff(c.xs)[0];
    var n := c.N();
    var y := c.ys;
    var steps := [AllIntervalsEqual(h), IntervalCount(n, false), FirstLastTerms(y[0], y[n], y[0] + y[n])];
    ghost var opening := steps;
    var weighted := GroupedWeightedSum38(y);
    var threes, twos := CoefficientTerms(y);
    assert |y| - 1 == n && weighted == Closed38(y, n);
    assert Sum(threes) == SumNotMul3(y, n) && Sum(twos) == SumMul3(y, n);
    if |threes| > 0 {
      steps := steps + [WeightedTerms(3, 3.0 * Sum(threes))];
    }
    assert steps == opening + (if n > 1 then [WeightedTerms(3, 3.0 * SumNotMul3(y, n))] else []);
    if |twos| > 0 {
      steps := steps + [WeightedTerms(2, 2.0 * Sum(twos))];
    }
    assert steps == opening + (if n > 1 then [WeightedTerms(3, 3.0 * SumNotMul3(y, n))] else [])
                            + (if n > 3 then [WeightedTerms(2, 2.0 * SumMul3(y, n))] else []);
    var result := (3.0 * h / 8.0) * weighted;
    ProductCongruence(3.0 * h / 8.0, 3.0 * h / 8.0, weighted, Closed38(y, n));
    p := Part(result, steps + [ApplyFormula(h, weighted, result)]);
  }

  /** The 3/8 part of the hybrid branch, on the points y[:si + 1]. */
  method Simpson38HeadRule(h: real, y: seq<real>, si: nat) returns (p: Part)
    requires si < |y| && si % 3 == 0
    ensures p == Simpson38Head(h, y, si)
  {
    if si > 0 {
      var points := y[..si + 1];
      assert |points| - 1 == si;
      var weighted := GroupedWeightedSum38(points);
      assert weighted == Closed38(y[..si + 1], si);
      var head := (3.0 * h / 8.0) * weighted;
      p := Part(head, [RulePart(weighted, head)]);
    } else {
      p := Part(0.0, [EmptyRulePart]);
    }
  }

  /** The trapezoid loop of the hybrid branch: intervals lo..hi-1, all of width h. */
  method UniformTail(h: real, y: seq<real>, lo: nat, hi: nat) returns (v: real, trace: seq<Step>)
    requires lo <= hi < |y|
    ensures v == UniformTrapSum(h, y, lo, hi)
    ensures trace == TailTrace(h, y, lo, hi)
  {
    v := 0.0;
    trace := [];
    for i := lo to hi
      invariant v == UniformTrapSum(h, y, lo, i)
      invariant trace == TailTrace(h, y, lo, i)
    {
      var area := (h / 2.0) * (y[i] + y[i + 1]);
      v := v + area;
      trace := trace + [IntervalArea(i, h, y[i], y[i + 1], area)];
    }
  }

  /** n not a multiple of 3: Simpson 3/8 on the first (n // 3)·3 intervals, trapezoids on the rest. */
  method Simpson38Hybrid(c: Calculator) returns (p: Part)
    requires c.Valid()
    ensures p == Simpson38HybridPart(c)
  {
    var h := Diff(c.xs)[0];
    var n := c.N();
    var y := c.ys;
    var si := (n / 3) * 3;
    var ti := n - si;
    var steps := [AllIntervalsEqual(h), IntervalCount(n, true), HybridSplit(si, ti)];
    var head := Simpson38HeadRule(h, y, si);
    var tailResult := 0.0;
    var tail: seq<Step> := [];
    if ti > 0 {
      tailResult, tail := UniformTail(h, y, si, n);
    }
    var result := head.value + tailResult;
    p := Part(result, steps + head.steps + tail + [HybridTotal(head.value, tailResult, result)]);
  }

  /** `simpson_3_8_rule`. */
  method Simpson38Rule(c: Calculator) returns (r: RuleResult)
    requires c.Valid()
    ensures r == Simpson38Spec(c)
  {
    var w := Diff(c.xs);
    var n := c.N();
    var p: Part;
    if AllClose(w, w[0]) {
      if n % 3 == 0 {
        p := Simpson38Pure(c);
      } else {
        p := Simpson38Hybrid(c);
      }
    } else {
      p := AdaptiveScan(c, 3);
    }
    var name := if !AllClose(w, w[0]) then Simpson38AdaptiveName else if n % 3 == 0 then Simpson38Name else Simpson38HybridName;
    r := Finish(p, SimpsonError(c, true), name);
  }

  /** `calculate_method`: dispatch on the method identifier; an unknown one raises ValueError. */
  method CalculateMethod(c: Calculator, id: string) returns (r: Result<RuleResult, CalcError>)
    requires c.Valid()
    ensures id !in MethodIds ==> r == Failure(UnknownMethod(id))
    ensures id in MethodIds ==> r == Success(RuleSpec(c, RuleOf(id).value))
  {
    var rule := RuleOf(id);
    if rule.None? {
      return Failure(UnknownMethod(id));
    }
    var v: RuleResult;
    match rule.value {
      case Trapezoidal =>
        v := TrapezoidalRule(c);
      case Simpson13 =>
        v := Simpson13Rule(c);
      case Simpson38 =>
        v := Simpson38Rule(c);
    }
    r := Success(v);
  }

  /** `compare_all_methods`: every rule is run, each inside its own try/except. */
  method CompareAllMethods(c: Calculator) returns (results: map<string, Entry>)
    requires c.Valid()
    ensures results.Keys == {"trapezoidal", "simpson_1_3", "simpson_3_8"}
    ensures results["trapezoidal"] == Computed(TrapezoidalSpec(c))
    ensures results["simpson_1_3"] == Computed(Simpson13Spec(c))
    ensures results["simpson_3_8"] == Computed(Simpson38Spec(c))
  {
    results := map[];
    assert RuleOf("trapezoidal") == Some(Trapezoidal);
    var r := CalculateMethod(c, "trapezoidal");
    results := results["trapezoidal" := EntryOf(r)];
    assert RuleOf("simpson_1_3") == Some(Simpson13);
    r := CalculateMethod(c, "simpson_1_3");
    results := results["simpson_1_3" := EntryOf(r)];
    assert RuleOf("simpson_3_8") == Some(Simpson38);
    r := CalculateMethod(c, "simpson_3_8");
    results := results["simpson_3_8" := EntryOf(r)];
  }
}

/**
 * How the pieces meet: the function-handle integrator of core/methods.py and
 * the tabulated-data calculator of integration_methods.py agree on an evenly
 * sampled interval; parameters that validate_params accepts always give a
 * grid the calculator accepts; and what the parsers return is (CSV) or may be
 * (manual input) a valid calculator input.
 */
module Agreement {
  import opened Wrappers
  import opened Kernels
  import opened Chunks
  import opened IntegrationSpec
  import opened IntegrationProperties
  import CoreMethods
  import Validator
  import DataParser

  /** The calculator built from the integrator's grid and its samples of f. */
  function Sampled(it: CoreMethods.Integrator): Calculator
  {
    Calculator(it.xs, CoreMethods.ComputeYs(it.f, it.xs))
  }

  /** Two differences are exactly equal, so they also pass np.allclose. */
  lemma SelfClose(h: real)
    ensures IsClose(h, h, ALLCLOSE_ATOL)
  {
  }

  /**
   * On a < b with n >= 1 the grid is strictly increasing and every width is
   * exactly h, so the calculator accepts it and takes its equal-interval branch.
   */
  lemma GridIsUniform(it: CoreMethods.Integrator)
    requires it.Valid() && it.n >= 1 && it.a < it.b
    ensures Sampled(it).Valid() && Sampled(it).N() == it.n
    ensures ExactlyUniform(Sampled(it)) && Uniform(Sampled(it))
    ensures Diff(it.xs)[0] == it.h
  {
    CoreMethods.PartitionEnds(it);
    var c := Sampled(it);
    forall i: nat | i + 1 < |c.xs|
      ensures StepsUp(c.xs, i)
    {
      assert it.xs[i] < it.xs[i + 1];
    }
    assert c.Valid();
    var w := Diff(it.xs);
    DiffAt(it.xs);
    forall i | 0 <= i < |w|
      ensures w[i] == it.h
    {
      assert w[i] == it.xs[i + 1] - it.xs[i];
    }
    SelfClose(it.h);
    AllCloseEvery(w, w[0]);
  }

  /** With a > b the grid runs downwards and the calculator rejects it. */
  lemma DescendingGridRejected(it: CoreMethods.Integrator)
    requires it.Valid() && it.n >= 1 && it.a > it.b
    ensures NewCalculator(Sampled(it).xs, Sampled(it).ys) == Failure(NotAscending)
  {
    CoreMethods.PartitionEnds(it);
    CoreMethods.PartitionAt(it.a, it.h, it.n);
    CoreMethods.StepSpansInterval(it.a, it.b, it.n);
    assert it.h < 0.0 by {
      assert (it.n as real) * it.h == it.b - it.a;
      if it.h >= 0.0 {
        NonNegativeProduct(it.n as real, it.h);
      }
    }
    assert it.xs[1] == it.xs[0] + it.h;
    assert !StepsUp(it.xs, 0);
  }

  /** Both trapezoidal rules give the same value on the sampled grid. */
  lemma TrapezoidalAgrees(it: CoreMethods.Integrator, showSteps: bool)
    requires it.Valid() && it.n >= 1 && it.a < it.b
    ensures Sampled(it).Valid()
    ensures CoreMethods.Trapezoidal(it, showSteps).Success?
    ensures CoreMethods.Trapezoidal(it, showSteps).value.value == TrapezoidalSpec(Sampled(it)).value
  {
    GridIsUniform(it);
    var c := Sampled(it);
    var w := Diff(c.xs);
    DiffAt(c.xs);
    CoreMethods.PartitionEnds(it);
    TrapezoidalIsIntervalSum(c);
    EqualWidthsTrapSum(w, c.ys, it.h, 0, c.N());
    CoreMethods.TrapezoidalIsSumOfTrapezoids(it, showSteps);
  }

  /** The integrator's Simpson 1/3 formula applied to a calculator's first width and samples. */
  function OneThirdOnGrid(c: Calculator): real
    requires c.Valid()
  {
    CoreMethods.OneThirdValue(Diff(c.xs)[0], c.ys)
  }

  /** The integrator's Simpson 3/8 formula applied to a calculator's first width and samples. */
  function ThreeEighthsOnGrid(c: Calculator): real
    requires c.Valid()
  {
    CoreMethods.ThreeEighthsValue(Diff(c.xs)[0], c.ys)
  }

  /** On the sampled grid the integrator's 1/3 estimate is its formula read off that calculator. */
  lemma IntegratorValue13(it: CoreMethods.Integrator, showSteps: bool)
    requires it.Valid() && it.n >= 1 && it.a < it.b && it.n % 2 == 0
    ensures Sampled(it).Valid() && Uniform(Sampled(it)) && Sampled(it).N() == it.n
    ensures CoreMethods.SimpsonOneThird(it, showSteps).Success?
    ensures CoreMethods.SimpsonOneThird(it, showSteps).value.value == OneThirdOnGrid(Sampled(it))
  {
    GridIsUniform(it);
    CoreMethods.SimpsonGuards(it, showSteps);
  }

  /** On the sampled grid the integrator's 3/8 estimate is its formula read off that calculator. */
  lemma IntegratorValue38(it: CoreMethods.Integrator, showSteps: bool)
    requires it.Valid() && it.n >= 1 && it.a < it.b && it.n % 3 == 0
    ensures Sampled(it).Valid() && Uniform(Sampled(it)) && Sampled(it).N() == it.n
    ensures CoreMethods.SimpsonThreeEighths(it, showSteps).Success?
    ensures CoreMethods.SimpsonThreeEighths(it, showSteps).value.value == ThreeEighthsOnGrid(Sampled(it))
  {
    GridIsUniform(it);
    CoreMethods.SimpsonGuards(it, showSteps);
  }

  /** (h/3) times the closed 1/3 sum of a calculator's samples. */
  function Closed13OnGrid(c: Calculator): real
    requires c.Valid()
  {
    (Diff(c.xs)[0] / 3.0) * Closed13(c.ys, c.N())
  }

  /** (3h/8) times the 3/8 panel sum of a calculator's samples. */
  function Panels38OnGrid(c: Calculator): real
    requires c.Valid() && c.N() % 3 == 0
  {
    (3.0 * Diff(c.xs)[0] / 8.0) * PanelSum38(c.ys, c.N() / 3)
  }

  lemma EvenPartClosed13(c: Calculator)
    requires c.Valid() && c.N() % 2 == 0
    ensures Simpson13EvenPart(c).value == Closed13OnGrid(c)
  {
    EvenPartValue(c);
  }

  lemma CalculatorClosed13(c: Calculator)
    requires c.Valid() && Uniform(c) && c.N() % 2 == 0
    ensures Simpson13Spec(c).value == Closed13OnGrid(c)
  {
    assert Simpson13Part(c) == Simpson13EvenPart(c);
    EvenPartClosed13(c);
  }

  lemma GridClosed13(c: Calculator)
    requires c.Valid() && c.N() % 2 == 0
    ensures OneThirdOnGrid(c) == Closed13OnGrid(c)
  {
    CoreMethods.OneThirdValuePanels(Diff(c.xs)[0], c.ys);
  }

  lemma PurePartPanels38(c: Calculator)
    requires c.Valid() && c.N() % 3 == 0
    ensures Simpson38PurePart(c).value == Panels38OnGrid(c)
  {
    PurePartValue(c);
  }

  lemma CalculatorPanels38(c: Calculator)
    requires c.Valid() && Uniform(c) && c.N() % 3 == 0
    ensures Simpson38Spec(c).value == Panels38OnGrid(c)
  {
    assert Simpson38Part(c) == Simpson38PurePart(c);
    PurePartPanels38(c);
  }

  lemma GridPanels38(c: Calculator)
    requires c.Valid() && c.N() % 3 == 0
    ensures ThreeEighthsOnGrid(c) == Panels38OnGrid(c)
  {
    CoreMethods.ThreeEighthsValuePanels(Diff(c.xs)[0], c.ys);
  }

  /**
   * On equal intervals with n even the calculator's Simpson 1/3 value is the
   * integrator's formula (h/3)(y0 + yn + 4·odd_sum + 2·even_sum).
   */
  lemma CalculatorValue13(c: Calculator)
    requires c.Valid() && Uniform(c) && c.N() % 2 == 0
    ensures Simpson13Spec(c).value == OneThirdOnGrid(c)
  {
    CalculatorClosed13(c);
    GridClosed13(c);
  }

  /**
   * On equal intervals with n a multiple of three the calculator's Simpson 3/8
   * value is the integrator's formula (3h/8)(y0 + yn + 3·sum_mod3 + 2·sum_mul3).
   */
  lemma CalculatorValue38(c: Calculator)
    requires c.Valid() && Uniform(c) && c.N() % 3 == 0
    ensures Simpson38Spec(c).value == ThreeEighthsOnGrid(c)
  {
    CalculatorPanels38(c);
    GridPanels38(c);
  }

  /** On equal intervals with n even the calculator reports the pure 1/3 rule. */
  lemma PureName13(c: Calculator)
    requires c.Valid() && Uniform(c) && c.N() % 2 == 0
    ensures Simpson13Spec(c).methodName == Simpson13Name
  {
    Simpson13Shape(c);
  }

  /** On equal intervals with n a multiple of three the calculator reports the pure 3/8 rule. */
  lemma PureName38(c: Calculator)
    requires c.Valid() && Uniform(c) && c.N() % 3 == 0
    ensures Simpson38Spec(c).methodName == Simpson38Name
  {
    Simpson38Shape(c);
  }

  /** With n even both Simpson 1/3 rules give the same value, and the calculator names the pure rule. */
  lemma SimpsonOneThirdAgrees(it: CoreMethods.Integrator, showSteps: bool)
    requires it.Valid() && it.n >= 1 && it.a < it.b && it.n % 2 == 0
    ensures Sampled(it).Valid()
    ensures CoreMethods.SimpsonOneThird(it, showSteps).Success?
    ensures CoreMethods.SimpsonOneThird(it, showSteps).value.value == Simpson13Spec(Sampled(it)).value
    ensures Simpson13Spec(Sampled(it)).methodName == Simpson13Name
  {
    IntegratorValue13(it, showSteps);
    CalculatorValue13(Sampled(it));
    PureName13(Sampled(it));
  }

  /** With n a multiple of three both Simpson 3/8 rules give the same value, and the calculator names the pure rule. */
  lemma SimpsonThreeEighthsAgrees(it: CoreMethods.Integrator, showSteps: bool)
    requires it.Valid() && it.n >= 1 && it.a < it.b && it.n % 3 == 0
    ensures Sampled(it).Valid() && Uniform(Sampled(it)) && Sampled(it).N() == it.n
    ensures CoreMethods.SimpsonThreeEighths(it, showSteps).Success?
    ensures CoreMethods.SimpsonThreeEighths(it, showSteps).value.value == Simpson38Spec(Sampled(it)).value
    ensures Simpson38Spec(Sampled(it)).methodName == Simpson38Name
  {
    IntegratorValue38(it, showSteps);
    CalculatorValue38(Sampled(it));
    PureName38(Sampled(it));
  }

  /**
   * Where the integrator refuses n, the calculator does not: it falls back on
   * its hybrid rules for the same grid.
   */
  lemma HybridWhereIntegratorRefuses(it: CoreMethods.Integrator, showSteps: bool)
    requires it.Valid() && it.n >= 1 && it.a < it.b
    ensures Sampled(it).Valid()
    ensures it.n % 2 != 0 ==>
      CoreMethods.SimpsonOneThird(it, showSteps) == Failure(CoreMethods.OddIntervals) &&
      Simpson13Spec(Sampled(it)).methodName == Simpson13HybridName
    ensures it.n % 3 != 0 ==>
      CoreMethods.SimpsonThreeEighths(it, showSteps) == Failure(CoreMethods.IntervalsNotMultipleOfThree) &&
      Simpson38Spec(Sampled(it)).methodName == Simpson38HybridName
  {
    GridIsUniform(it);
    CoreMethods.SimpsonGuards(it, showSteps);
    Simpson13Shape(Sampled(it));
    Simpson38Shape(Sampled(it));
  }

  /**
   * Parameters that validate_params accepts always build an integrator, and
   * its sampled grid is an evenly spaced calculator input.
   */
  lemma ValidParamsGiveIntegrator(f: real -> real, a: real, b: real, n: int)
    requires Validator.ValidateParams(a, b, Validator.Int(n)).None?
    ensures CoreMethods.NewIntegrator(f, a, b, n).Success?
    ensures var it := CoreMethods.NewIntegrator(f, a, b, n).value;
      NewCalculator(it.xs, CoreMethods.ComputeYs(f, it.xs)) == Success(Sampled(it)) && Uniform(Sampled(it))
  {
    var it := CoreMethods.NewIntegrator(f, a, b, n).value;
    GridIsUniform(it);
  }

  /** What the CSV parser returns is always accepted by the calculator. */
  lemma CsvResultIsCalculatorInput(rows: seq<seq<string>>, toFloat: string -> Option<real>)
    requires DataParser.ParseCsvSpec(rows, toFloat).Success?
    ensures var r := DataParser.ParseCsvSpec(rows, toFloat).value;
      NewCalculator(r.0, r.1) == Success(Calculator(r.0, r.1))
  {
    DataParser.CsvSuccessShape(rows, toFloat);
    var xs := DataParser.ParseCsvSpec(rows, toFloat).value.0;
    forall i: nat | i + 1 < |xs|
      ensures StepsUp(xs, i)
    {
    }
  }

  /**
   * Manual input is not sorted: the calculator accepts it exactly when the x
   * values were typed in non-decreasing order.
   */
  lemma ManualResultAcceptedWhenAscending(xString: string, yString: string, toFloat: string -> Option<real>)
    requires DataParser.ParseManualInput(xString, yString, toFloat).Success?
    ensures var r := DataParser.ParseManualInput(xString, yString, toFloat).value;
      NewCalculator(r.0, r.1).Success? <==> Ascending(r.0)
  {
    DataParser.ManualInputValues(xString, yString, toFloat);
  }
}

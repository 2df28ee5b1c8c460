# Numerical integration calculator, modelled in Dafny

This project models the quadrature core of a numerical integration
calculator.

**The sample-data calculator.** `IntegrationCalculator` in
`apps/calculator/utils/integration_methods.py` takes the x and y values of a
sampled function. It checks them, and then integrates them by one of
three composite rules.

- Trapezoidal rule.
- Simpson 1/3 rule.
- Simpson 3/8 rule.

On equally spaced samples each rule runs in closed form. When a Simpson rule
does not fit the interval count, it runs in the "Hybrid" form: the
rule on a head of the intervals, and trapezoids on the remaining ones. On
unequally spaced samples the Simpson rules run in the "Adaptive" form. A
greedy left-to-right scan cuts the intervals into chunks of near-equal
width. Each chunk gets the grouped rule when its size fits, and one
trapezoid per interval otherwise. Each rule also returns:

- a trace of its steps;
- an optional finite-difference error estimate;
- a method name.

A dispatcher chooses a rule by its id, and a comparison runs all three rules.

Three smaller pieces sit beside the calculator.

- **The function-handle integrator.** `Integrator` in `core/methods.py`
  cuts `[a, b]` into `n` equal subintervals, samples `f` there, and applies
  the same three rules in closed form. The Simpson rules are guarded by
  divisibility checks.
- **Parameter validation.** `validate_params` in `io_layer/validator.py`
  checks the bounds and the subinterval count of that integrator.
- **Input parsing.** `DataParser` in
  `apps/calculator/utils/data_parser.py` turns two comma-separated strings, or
  the rows of a CSV file, into the x and y values the calculator takes.
  `validate_data_for_method` always reports no errors.

## How it is modelled

- **Arithmetic and tolerances.** Arithmetic is exact, over `real`.
  `np.allclose` and `np.isclose` are modelled exactly as
  |a − b| <= atol + rtol·|b|, with rtol 1e-5. The atol is 1e-8 for the
  uniformity test and 1e-10 for the chunk scan. Both tests therefore
  include the relative term: neither is a purely absolute tolerance.
- **State and steps.** The calculator's fields are set once, so the
  calculator is a value (`IntegrationSpec.Calculator`); the same holds for
  the integrator. The step list becomes a sequence of `Step` events, one
  per `steps.append`. Each event carries the numbers its message prints.
- **Rules: methods and specification functions.** Each rule of the
  calculator is a `method` with the source's loops in `IntegrationMethods`:
  - the chunk scan;
  - the weighted-sum and grouped 3/8 loops;
  - the per-interval trapezoid loops.

  Each method is proved equal to a recursive specification function in
  `IntegrationSpec`. The properties are then proved about those functions,
  in `IntegrationProperties`, `Chunks` and `Kernels`.
- **Integrator and validator.** These are pure functions (`CoreMethods`,
  `Validator`).
- **Cross-module lemmas.** `Agreement` links the integrator, the validator
  and the parser to the calculator.
- **The parser.**
  - *Parameters for `float()` and `csv.reader`.* The parser takes Python's
    `float()` as a parameter, `toFloat: string -> Option<real>`. It takes
    the `csv.reader` tokenisation as its input rows, `seq<seq<string>>`.
  - *Manual input.* Parsing manual input is pure: comma splitting,
    stripping, dropping blank tokens.
  - *The CSV row loop.* `DataParser.ReadDataRows` is a method whose loop
    appends to the two column lists. `DataParser.ParseCsvFile` is the whole
    function, proved equal to `DataParser.ParseCsvSpec`.

### What the code computes on its own test data

- **Test data.** The test data is x = 0..4, y = 1, 4, 9, 16, 25
  (`apps/calculator/tests.py:14-15`). The code gives 42 for the trapezoidal
  rule and 124/3 for Simpson 1/3.
- **Simpson 3/8 on the test data.** Simpson 3/8 with n = 4 takes the Hybrid
  path: 3/8 on three intervals and one trapezoid, giving 41.5. It does not
  raise.
- **Tolerances.** Both closeness tests keep numpy's default relative
  tolerance, as the code does.

## Model

| member | source | states |
|---|---|---|
| IntegrationSpec.NewCalculator | apps/calculator/utils/integration_methods.py:11-27 | construction fails on unequal lengths first, then on fewer than 2 points, then on a descending neighbour pair; it succeeds exactly when the samples are valid (equal neighbouring x allowed) |
| IntegrationSpec.DiffAt | apps/calculator/utils/integration_methods.py:35 | each width is the difference of neighbouring x values |
| IntegrationSpec.MaxAbsIsMaximum | apps/calculator/utils/integration_methods.py:66-70 | the maximum absolute difference bounds every entry and is attained by one |
| IntegrationSpec.RuleOf | apps/calculator/utils/integration_methods.py:398-406 | each of the three ids selects its rule; every other id selects none |
| Chunks.AllCloseEvery | apps/calculator/utils/integration_methods.py:38 | the uniformity test holds iff every width is close to the first |
| Chunks.ScanEnd | apps/calculator/utils/integration_methods.py:159-161 | the inner scan stops at the first width not close to the chunk's first width, or at n |
| Chunks.ChunkEnd | apps/calculator/utils/integration_methods.py:155-163 | a chunk has at least one interval, all its widths are close to its first, and the width after it is not |
| Chunks.ChunksTile | apps/calculator/utils/integration_methods.py:153-197 | the chunks start at i, each begins where the previous ended, and they end at n |
| Chunks.ChunksRun | apps/calculator/utils/integration_methods.py:153-197 | every chunk is a maximal run of widths close to its first |
| Chunks.ChunksPartition | apps/calculator/utils/integration_methods.py:326-373 | the 3/8 scan's chunks tile the intervals and are maximal runs |
| Chunks.TilesOrdered | apps/calculator/utils/integration_methods.py:153-197 | a later chunk starts at or after the end of an earlier one: no overlap |
| Chunks.TilesOwner | apps/calculator/utils/integration_methods.py:153-197 | every interval lies in some chunk |
| Chunks.EachIntervalOnce | apps/calculator/utils/integration_methods.py:153-197 | every interval is covered, by exactly one chunk |
| Chunks.IrregularHasSeveralChunks | apps/calculator/utils/integration_methods.py:145-163 | on non-uniform widths the scan finds at least two chunks, since its tolerance is tighter than the uniformity test's |
| Kernels.TrapezoidPrefix | apps/calculator/utils/integration_methods.py:43-47 | the closed trapezoid form over points 0..k equals the sum of the k interval trapezoids |
| Kernels.TrapezoidClosedIsIntervalSum | apps/calculator/utils/integration_methods.py:47 | (h/2)(y0 + 2·interior + yn) equals the sum of the interval trapezoids |
| Kernels.EqualWidthsTrapSum | apps/calculator/utils/integration_methods.py:50-60 | with all widths equal to h, the per-width trapezoid sum is the uniform one |
| Kernels.WidthTrapSplit | apps/calculator/utils/integration_methods.py:186-195 | a trapezoid sum splits at any middle index |
| Kernels.SumsOfPrefix | apps/calculator/utils/integration_methods.py:126-133 | the filtered sums over a prefix slice equal those over the whole sequence |
| Kernels.SliceIsClosed13 | apps/calculator/utils/integration_methods.py:171-181 | the slice form of the 1/3 weighted sum equals the index form |
| Kernels.Weighted13Prefix | apps/calculator/utils/integration_methods.py:98-111 | weights 1, 4, 2, ..., 4, 1 sum to y0 plus 4·odd-index plus 2·even-index terms |
| Kernels.Closed13ByWeights | apps/calculator/utils/integration_methods.py:98-113 | the 1/3 weighted sum is the sum of y[i] times its composite weight |
| Kernels.Closed13Panels | apps/calculator/utils/integration_methods.py:95-114 | the 1/3 weighted sum is the sum of per-panel y0 + 4y1 + y2 |
| Kernels.Weighted38Prefix | apps/calculator/utils/integration_methods.py:240-256 | the 3/8 weights sum to y0 plus 3·(index not multiple of 3) plus 2·(interior multiple of 3) terms |
| Kernels.Closed38ByWeights | apps/calculator/utils/integration_methods.py:240-256 | the 3/8 weighted sum is the sum of y[i] times its composite weight 1, 3, 3, 2, ..., 3, 3, 1 |
| Kernels.Closed38Panels | apps/calculator/utils/integration_methods.py:237-275 | the 3/8 weighted sum is the sum of per-panel y0 + 3y1 + 3y2 + y3 |
| IntegrationMethods.FindChunkEnd | apps/calculator/utils/integration_methods.py:158-163 | the inner while loop returns the chunk end |
| IntegrationMethods.TrapezoidChunk | apps/calculator/utils/integration_methods.py:186-195 | the chunk's trapezoid loop returns the width-weighted trapezoid sum and one step per interval |
| IntegrationMethods.GroupStep38 | apps/calculator/utils/integration_methods.py:245-255 | one group of three adds y[i+1], y[i+2] with weight 3 and an interior y[i] with weight 2 |
| IntegrationMethods.GroupedWeightedSum38 | apps/calculator/utils/integration_methods.py:241-256 | the grouped loop computes the composite 3/8 weighted sum |
| IntegrationMethods.CoefficientTerms | apps/calculator/utils/integration_methods.py:258-272 | the coefficient lists sum to the 3-weighted and the 2-weighted terms, and are non-empty exactly when n > 1, resp. n > 3 |
| IntegrationMethods.GroupedChunk | apps/calculator/utils/integration_methods.py:169-184 | an eligible chunk gets the grouped rule's weighted sum, scaled by h/3 or 3h/8 |
| IntegrationMethods.ScanChunk | apps/calculator/utils/integration_methods.py:153-197 | one pass of the outer loop returns the chunk end and that chunk's value and steps |
| IntegrationMethods.AdaptiveScan | apps/calculator/utils/integration_methods.py:145-199 | the adaptive branch returns the left-to-right sum and trace of chunk contributions |
| IntegrationMethods.TrapezoidIrregular | apps/calculator/utils/integration_methods.py:50-60 | the unequal-interval loop returns the interval-trapezoid sum and trace |
| IntegrationMethods.TrapezoidalRule | apps/calculator/utils/integration_methods.py:29-78 | `trapezoidal_rule` returns the result, steps, error estimate and name of the specification |
| IntegrationMethods.Simpson13Rule | apps/calculator/utils/integration_methods.py:80-220 | `simpson_1_3_rule` returns the specification's result, including the source's (h/3)·2·y0 head on a single uniform interval (see Findings) |
| IntegrationMethods.Simpson38Pure | apps/calculator/utils/integration_methods.py:237-275 | the pure 3/8 branch returns 3h/8 times the composite weighted sum, with its steps |
| IntegrationMethods.Simpson38HeadRule | apps/calculator/utils/integration_methods.py:286-305 | the hybrid 3/8 head is the 3/8 rule on the first si intervals, or 0 with an "empty" step when si = 0 |
| IntegrationMethods.UniformTail | apps/calculator/utils/integration_methods.py:307-313 | the hybrid tail loop sums one width-h trapezoid per remaining interval, one step each |
| IntegrationMethods.Simpson38Hybrid | apps/calculator/utils/integration_methods.py:277-316 | the hybrid branch returns head plus tail, with its steps |
| IntegrationMethods.Simpson38Rule | apps/calculator/utils/integration_methods.py:222-396 | `simpson_3_8_rule` returns the specification's result |
| IntegrationMethods.CalculateMethod | apps/calculator/utils/integration_methods.py:398-408 | an unknown id fails with that id; a known id returns its rule's result |
| IntegrationMethods.CompareAllMethods | apps/calculator/utils/integration_methods.py:410-432 | exactly the three ids are keys, each holding its rule's computed result |
| IntegrationProperties.TrapezoidalShape | apps/calculator/utils/integration_methods.py:38-78 | unfolding lemma: the trapezoidal result is the closed-form part (uniform) or the interval loop (otherwise) followed by the error step, named 'Trapezoidal Rule' |
| IntegrationProperties.Simpson13Shape | apps/calculator/utils/integration_methods.py:89-220 | unfolding lemma: the 1/3 result is the adaptive, pure or as-written hybrid part (chosen by uniformity and parity) followed by the error step, with the matching name |
| IntegrationProperties.Simpson38Shape | apps/calculator/utils/integration_methods.py:231-396 | unfolding lemma: the 3/8 result is the adaptive, pure or hybrid part (chosen by uniformity and n mod 3) followed by the error step, with the matching name |
| IntegrationProperties.IntervalTraceAt | apps/calculator/utils/integration_methods.py:54-58 | the interval loop records one area step per interval, with its index, width, ends and area |
| IntegrationProperties.TailTraceAt | apps/calculator/utils/integration_methods.py:310-313 | the hybrid tail records one area step per remaining interval |
| IntegrationProperties.ChunkIntervalTraceAt | apps/calculator/utils/integration_methods.py:189-192 | a trapezoid chunk records one area step per interval and no chunk marker |
| IntegrationProperties.TrapezoidalIsIntervalSum | apps/calculator/utils/integration_methods.py:38-60 | the trapezoidal result is the sum of (x[i+1]−x[i])/2·(y[i]+y[i+1]) on irregular or exactly uniform input |
| IntegrationProperties.TrapezoidIrregularTrace | apps/calculator/utils/integration_methods.py:50-60 | the irregular trace is a header, one area step per interval, and the total |
| IntegrationProperties.TrapezoidalIrregularTrace | apps/calculator/utils/integration_methods.py:50-71 | on irregular input that is the whole trace and there is no estimate |
| IntegrationProperties.AscendingSpan | apps/calculator/utils/integration_methods.py:26 | ascending samples never fall below the first x |
| IntegrationProperties.TrapezoidalErrorAvailability | apps/calculator/utils/integration_methods.py:62-71 | the trapezoid estimate exists iff there are more than 2 points and the spacing is uniform; when it exists it is the last step |
| IntegrationSpec.TrapezoidalError | apps/calculator/utils/integration_methods.py:62-71 | the trapezoid estimate −(h³/12)·max abs(Δ²y)·n is computed exactly when there are more than 2 points and the spacing is uniform |
| IntegrationSpec.SimpsonError | apps/calculator/utils/integration_methods.py:201-211 | the Simpson estimate (−h⁵/90 for the 1/3 rule, or −3h⁵/80 for the 3/8 rule at lines 377-387, times max abs(Δ⁴y) and the span) is computed exactly when there are more than 4 points and the spacing is uniform |
| IntegrationProperties.FourthDifferencesLength | apps/calculator/utils/integration_methods.py:207-208 | the fourth differences of more than 4 values are not empty |
| IntegrationProperties.Simpson13ErrorAvailability | apps/calculator/utils/integration_methods.py:201-211 | the 1/3 estimate exists iff there are more than 4 points and the spacing is uniform; it is then the last step |
| IntegrationProperties.Simpson38ErrorAvailability | apps/calculator/utils/integration_methods.py:377-387 | the 3/8 estimate exists iff there are more than 4 points and the spacing is uniform; it is then the last step |
| IntegrationProperties.TrapezoidalEstimateNonPositive | apps/calculator/utils/integration_methods.py:68-70 | −(h³/12)·max abs(Δ²y)·n is never positive for h >= 0 |
| IntegrationProperties.TrapezoidalErrorNonPositive | apps/calculator/utils/integration_methods.py:62-71 | the trapezoid error estimate, when present, is at most 0 |
| IntegrationProperties.SimpsonEstimateNonPositive | apps/calculator/utils/integration_methods.py:209-210 | −(h⁵/90 or 3h⁵/80)·max abs(Δ⁴y)·(xn − x0) is never positive |
| IntegrationProperties.SimpsonErrorNonPositive | apps/calculator/utils/integration_methods.py:377-387 | each Simpson error estimate, when present, is at most 0 |
| IntegrationProperties.ErrorEstimatesNonPositive | apps/calculator/utils/integration_methods.py:62-71 | no rule reports a positive error estimate |
| IntegrationProperties.FirstWidthNonNegative | apps/calculator/utils/integration_methods.py:25-27 | on valid samples the first width is non-negative |
| IntegrationProperties.MaxAbsNonNegative | apps/calculator/utils/integration_methods.py:68 | the maximum absolute difference is non-negative |
| IntegrationProperties.Simpson13MethodNames | apps/calculator/utils/integration_methods.py:213 | the name is "(Adaptive)" iff non-uniform, the plain name iff uniform with n even, "(Hybrid)" iff uniform with n odd |
| IntegrationProperties.Simpson38MethodNames | apps/calculator/utils/integration_methods.py:389 | the name is "(Adaptive)" iff non-uniform, the plain name iff uniform with n mod 3 = 0, "(Hybrid)" otherwise |
| IntegrationProperties.EvenPartValue | apps/calculator/utils/integration_methods.py:95-114 | the even branch is h/3 times the composite weights, i.e. n/2 panels |
| IntegrationProperties.Simpson13UniformEven | apps/calculator/utils/integration_methods.py:95-114 | n even: (h/3)(y0 + yn + 4Σodd + 2Σinterior even), equal to the sum of n/2 panels |
| IntegrationProperties.OddPartValue | apps/calculator/utils/integration_methods.py:116-143 | n odd: as written, the hybrid is (h/3)·(the (n−1)/2 panels) plus the last trapezoid for n >= 3, and (h/3)·2·y0 plus the trapezoid for n = 1; the corrected hybrid is the panels (none at n = 1) plus the trapezoid for every odd n |
| IntegrationProperties.OddHeadPanels | apps/calculator/utils/integration_methods.py:126-135 | the 1/3 sum over y[:-1] (n >= 3) is the sum of (n−1)/2 panels |
| IntegrationSpec.Simpson13OddPartAsWritten | apps/calculator/utils/integration_methods.py:116-143 | the odd hybrid as the source computes it (the 1/3 weighted sum of y[:-1], plus the trapezoid on the last interval); from n = 3 on it is exactly the corrected hybrid, so the two differ only at n = 1 |
| IntegrationProperties.Simpson13UniformOdd | apps/calculator/utils/integration_methods.py:116-143 | n odd: the rule returns Simpson over points 0..n−1 plus (h/2)(y[n−1] + y[n]) for n >= 3, and (h/3)·2·y0 + (h/2)(y0 + y1) for n = 1 |
| IntegrationProperties.Simpson13TwoPointsAsWritten | apps/calculator/utils/integration_methods.py:126-135 | n = 1: the head as written is (h/3)·2·y0; the corrected hybrid is the single trapezoid |
| IntegrationProperties.TwoPointSampleIsUniform | apps/calculator/utils/integration_methods.py:17-38 | x = [0, 1], y = [1, 1] is a valid, uniform sample with one interval |
| IntegrationProperties.Simpson13TwoPointsCounterexample | apps/calculator/utils/integration_methods.py:116-143 | on x = [0, 1], y = [1, 1] the 1/3 rule returns 5/3; the corrected hybrid gives the exact 1, as the trapezoidal rule does |
| IntegrationProperties.PurePartValue | apps/calculator/utils/integration_methods.py:237-275 | the pure 3/8 branch is 3h/8 times the composite weights, i.e. n/3 panels |
| IntegrationProperties.Simpson38UniformPure | apps/calculator/utils/integration_methods.py:237-275 | n mod 3 = 0: weights 1 at the ends, 3 off multiples of 3, 2 at interior multiples, times 3h/8 |
| IntegrationProperties.Simpson38HeadValue | apps/calculator/utils/integration_methods.py:286-305 | the 3/8 head over si intervals is si/3 panels, and 0 when si = 0 |
| IntegrationProperties.HybridPartValue | apps/calculator/utils/integration_methods.py:277-316 | the hybrid is the 3/8 panels of (n//3)·3 intervals plus one trapezoid for each of the 1 or 2 remaining intervals |
| IntegrationProperties.HybridPartTrace | apps/calculator/utils/integration_methods.py:307-313 | the hybrid trace holds one area step per remaining interval, after the four head steps |
| IntegrationProperties.Simpson38UniformHybrid | apps/calculator/utils/integration_methods.py:277-316 | n mod 3 ≠ 0: the 3/8 rule's value and trace are those of the hybrid |
| IntegrationProperties.MarksAppend | apps/calculator/utils/integration_methods.py:167 | the chunk markers of a concatenated trace are those of its parts |
| IntegrationProperties.MarksNone | apps/calculator/utils/integration_methods.py:189-192 | interval steps carry no chunk markers |
| IntegrationProperties.ChunkPartMarks | apps/calculator/utils/integration_methods.py:167-195 | each chunk's trace carries exactly its own marker |
| IntegrationProperties.AdaptiveMarks | apps/calculator/utils/integration_methods.py:153-197 | the markers in the adaptive trace are exactly the scan's chunks, in order |
| IntegrationProperties.AdaptiveBranchMarks | apps/calculator/utils/integration_methods.py:145-199 | the whole adaptive branch reports the chunks from interval 0 |
| IntegrationProperties.AdaptiveChunksPartition | apps/calculator/utils/integration_methods.py:153-197 | on irregular input both Simpson rules report the same chunks; they tile [0, n), are maximal runs, and are at least two |
| IntegrationProperties.ChunkPartShape | apps/calculator/utils/integration_methods.py:167-195 | a chunk gets the grouped rule iff it is eligible; otherwise it gets one trapezoid step per interval and its width-trapezoid sum |
| IntegrationProperties.NoneEligibleTail | apps/calculator/utils/integration_methods.py:169-186 | if no chunk is eligible, neither is the first nor any later one |
| IntegrationProperties.AdaptiveIneligibleIsTrapezoid | apps/calculator/utils/integration_methods.py:186-195 | with no eligible chunk, the adaptive total is the interval-trapezoid sum |
| IntegrationProperties.SimpsonFallsBackToTrapezoid | apps/calculator/utils/integration_methods.py:145-199 | with no eligible chunk, each Simpson rule equals the trapezoidal rule |
| IntegrationProperties.SingleRunMatchesUniform | apps/calculator/utils/integration_methods.py:169-184 | an eligible chunk spanning all intervals gives the uniform pure rule's value |
| IntegrationProperties.UniformSampleIsUniform | apps/calculator/tests.py:14-16 | the test samples are valid and exactly uniform with h = 1 |
| IntegrationProperties.UniformSampleTrapezoidal | apps/calculator/tests.py:18-24 | trapezoidal on the test data gives 42 |
| IntegrationProperties.UniformSampleSimpson13 | apps/calculator/tests.py:26-31 | Simpson 1/3 on the test data gives 124/3 |
| IntegrationProperties.UniformSampleSimpson38 | apps/calculator/utils/integration_methods.py:277-316 | Simpson 3/8 on the test data is the hybrid and gives 41.5 |
| IntegrationProperties.IrregularScenario | apps/calculator/utils/integration_methods.py:145-199 | x = 0, 1, 2, 4 splits into chunks [0, 2) and [2, 3); trapezoid 23, Simpson 1/3 68/3, Simpson 3/8 23 |
| CoreMethods.Partition | core/methods.py:24 | n + 1 points, none when n is negative |
| CoreMethods.PartitionAt | core/methods.py:24 | point i is a + i·h |
| CoreMethods.NewIntegrator | core/methods.py:9-25 | construction fails exactly when n = 0 (division by zero) and otherwise keeps a, b, n |
| CoreMethods.ComputeYs | core/methods.py:27-28 | one sample per point |
| CoreMethods.ComputeYsAt | core/methods.py:27-28 | sample i is f(x[i]) |
| CoreMethods.SampleCount | core/methods.py:24-28 | there are n + 1 samples (none for negative n), at least 2 for n >= 1 |
| CoreMethods.StepSpansInterval | core/methods.py:23 | n·((b − a)/n) = b − a |
| CoreMethods.PartitionEnds | core/methods.py:22-25 | xs[0] = a, xs[n] = b, neighbouring points differ by h, and the points ascend when a < b |
| CoreMethods.TrapezoidalIsSumOfTrapezoids | core/methods.py:38-54 | it fails only for negative n; otherwise h((y0+yn)/2 + Σinterior) is the sum of the interval trapezoids; steps are present iff requested |
| CoreMethods.SimpsonGuards | core/methods.py:63-94 | an odd n (resp. n mod 3 ≠ 0) raises before sampling; negative n fails on the empty samples; positive n succeeds |
| CoreMethods.Trapezoidal | core/methods.py:38-54 | `trapezoidal` fails exactly for negative n; the steps dict is present iff requested and echoes the grid and the samples |
| CoreMethods.SimpsonOneThird | core/methods.py:56-79 | `simpson_one_third` raises the parity error exactly for odd n, fails exactly for odd or negative n, and returns the steps iff requested |
| CoreMethods.SimpsonThreeEighths | core/methods.py:81-104 | `simpson_three_eighths` raises the divisibility error exactly when 3 does not divide n, fails exactly for such or negative n, and returns the steps iff requested |
| CoreMethods.OneThirdValuePanels | core/methods.py:66-69 | the 1/3 formula is h/3 times the composite weights and the sum of n/2 panels |
| CoreMethods.ThreeEighthsValuePanels | core/methods.py:91-94 | the 3/8 formula is 3h/8 times the composite weights and the sum of n/3 panels |
| CoreMethods.SimpsonOneThirdIsSumOfPanels | core/methods.py:56-79 | for even positive n the rule succeeds with the panel sum; steps are present iff requested |
| CoreMethods.SimpsonThreeEighthsIsSumOfPanels | core/methods.py:81-104 | for positive n divisible by 3 the rule succeeds with the panel sum; steps are present iff requested |
| CoreMethods.StepsEchoGrid | core/methods.py:30-36 | the step record repeats h, the x values and the sampled y values |
| Validator.ValidateParams | io_layer/validator.py:1-15 | `validate_params` returns (None) iff a < b and n is an integer >= 1, and raises otherwise |
| Validator.ValidateParamsFirstFailure | io_layer/validator.py:9-15 | the bounds are checked first, then the type of n, then its sign |
| Validator.ParserTestCases | tests/test_parser.py:6-18 | (0, 1, 4) passes; (1, 0, 5), (0, 1, 0), (0, 1, −3) and (0, 1, 2.5) fail, with the 'n' messages of the source |
| Text.DigitChar | apps/calculator/utils/data_parser.py:66 | a digit value maps to its digit character |
| Text.NatToString | apps/calculator/utils/data_parser.py:66 | a row number prints as decimal digits without a leading zero |
| Text.IntToString | io_layer/validator.py:15 | an integer prints as a non-empty text |
| Text.NatToStringRoundTrip | apps/calculator/utils/data_parser.py:66 | the printed digits of a number read back as that number |
| Text.NatToStringInjective | apps/calculator/utils/data_parser.py:77 | different row numbers print differently |
| DataParser.TrimStartShape | apps/calculator/utils/data_parser.py:19 | left stripping drops exactly a leading run of whitespace |
| DataParser.TrimEndShape | apps/calculator/utils/data_parser.py:19 | right stripping drops exactly a trailing run of whitespace |
| DataParser.StripShape | apps/calculator/utils/data_parser.py:19 | `strip()` returns the middle of the text, with whitespace on both sides removed |
| DataParser.StripPadded | apps/calculator/utils/data_parser.py:19 | stripping a stripped text padded by whitespace gives it back |
| DataParser.AllSpaceTrimsToEmpty | apps/calculator/utils/data_parser.py:19 | an all-whitespace token strips to empty and is dropped |
| DataParser.Split | apps/calculator/utils/data_parser.py:19 | `split(',')` returns at least one piece |
| DataParser.SplitPiecesSepFree | apps/calculator/utils/data_parser.py:19 | no piece contains the separator |
| DataParser.JoinSplit | apps/calculator/utils/data_parser.py:19 | joining the pieces with the separator gives the text back |
| DataParser.SplitJoin | apps/calculator/utils/data_parser.py:19 | splitting a join of separator-free pieces gives the pieces back |
| DataParser.SplitAppend | apps/calculator/utils/data_parser.py:19 | a final separator-free piece becomes the last piece |
| DataParser.SplitWithoutSep | apps/calculator/utils/data_parser.py:19 | a text without separators is one piece |
| DataParser.NonBlank | apps/calculator/utils/data_parser.py:19-20 | the kept tokens are stripped, non-empty and no more than the pieces |
| DataParser.TokensOfJoin | apps/calculator/utils/data_parser.py:19-20 | the tokens of a comma join are its non-blank stripped pieces, in order |
| DataParser.NonBlankSpaceLed | apps/calculator/utils/data_parser.py:19-20 | ", "-separated plain tokens survive stripping unchanged |
| DataParser.TokensOfCommaSpaceJoin | apps/calculator/utils/data_parser.py:19-20 | the tokens of "t1, t2, ..." are t1, t2, ... in order |
| DataParser.ConvertAll | apps/calculator/utils/data_parser.py:19-20 | conversion succeeds iff every token converts, and keeps one value per token, in order |
| DataParser.ManualInputErrors | apps/calculator/utils/data_parser.py:17-33 | a non-number fails first, then unequal counts, then fewer than 2 values; success exactly otherwise |
| DataParser.ParseManualInput | apps/calculator/utils/data_parser.py:15-33 | `parse_manual_input` returns two equally long lists of at least 2 values, and never reports a count mismatch when both strings hold the same number of tokens |
| DataParser.ManualInputValues | apps/calculator/utils/data_parser.py:19-28 | on success both lists hold one converted value per token, in order, equally many and at least 2 |
| DataParser.CsvMessage | apps/calculator/utils/data_parser.py:88-89 | every CSV error message starts with "Error parsing CSV file: " |
| DataParser.ScanStep | apps/calculator/utils/data_parser.py:64-77 | the row scan over i + 1 rows extends the scan over i rows by row i |
| DataParser.Insert | apps/calculator/utils/data_parser.py:83 | insertion keeps the pairs sorted and adds exactly one pair |
| DataParser.SortPairs | apps/calculator/utils/data_parser.py:83 | `sorted` returns a sorted permutation of the pairs |
| DataParser.Zip | apps/calculator/utils/data_parser.py:83 | `zip` pairs the columns, one pair per row |
| DataParser.Firsts | apps/calculator/utils/data_parser.py:84 | the x column has one entry per pair |
| DataParser.Seconds | apps/calculator/utils/data_parser.py:84 | the y column has one entry per pair |
| DataParser.SecondsAt | apps/calculator/utils/data_parser.py:84 | entry i of the y column is the second of pair i |
| DataParser.FirstsAt | apps/calculator/utils/data_parser.py:84 | entry i of the x column is the first of pair i |
| DataParser.ZipColumns | apps/calculator/utils/data_parser.py:83-84 | unzipping then zipping gives the pairs back |
| DataParser.ScanFailurePersists | apps/calculator/utils/data_parser.py:64-77 | once a row raises, later rows do not change the error |
| DataParser.CsvFailsWithScan | apps/calculator/utils/data_parser.py:61-77 | a failing row scan is the CSV result |
| DataParser.CsvSortsScan | apps/calculator/utils/data_parser.py:79-86 | fewer than 2 kept points fail; otherwise the result is the sorted pairs, unzipped |
| DataParser.ZipSnoc | apps/calculator/utils/data_parser.py:73-74 | appending to both columns appends one pair |
| DataParser.ScanStopsAtShortRow | apps/calculator/utils/data_parser.py:65-66 | a row with fewer than 2 cells fails with its file row number |
| DataParser.ScanStopsAtInvalidRow | apps/calculator/utils/data_parser.py:68-77 | a non-blank cell that is not a number fails with its file row number |
| DataParser.ScanKeepsRow | apps/calculator/utils/data_parser.py:69-74 | a row with two numbers appends one x and one y |
| DataParser.ScanSkipsRow | apps/calculator/utils/data_parser.py:69-74 | a readable row with a blank cell is skipped |
| DataParser.ReadDataRows | apps/calculator/utils/data_parser.py:61-77 | the row loop fails with the scan's error, or returns equally long columns whose pairs are the kept rows |
| DataParser.ParseCsvFile | apps/calculator/utils/data_parser.py:35-89 | `parse_csv_file` returns the CSV specification's result |
| DataParser.ExtraColumnsIgnored | apps/calculator/utils/data_parser.py:65-74 | cells past the second do not change how a row is read |
| DataParser.ScanFailureAt | apps/calculator/utils/data_parser.py:64-77 | a failing scan fails at the first unreadable row, and all earlier rows are readable |
| DataParser.ScanSucceedsOnReadable | apps/calculator/utils/data_parser.py:64-77 | the scan succeeds iff every row is readable, and then keeps exactly the rows with two numbers |
| DataParser.RowErrorFacts | apps/calculator/utils/data_parser.py:65-77 | a row error carries the row's number, and is "short" iff the row has fewer than 2 cells |
| DataParser.ReadableFrom | apps/calculator/utils/data_parser.py:56 | readability of the data rows carries over to the file rows |
| DataParser.CsvRowErrorFromScan | apps/calculator/utils/data_parser.py:43-77 | a row error means both row-count checks passed and the scan failed with that error |
| DataParser.CsvRowErrorLocation | apps/calculator/utils/data_parser.py:56-77 | a row error names the 1-based file row of the first bad data row (i + 2 after a header, i + 1 without), and all earlier data rows are readable |
| DataParser.CsvSuccessCondition | apps/calculator/utils/data_parser.py:43-80 | success iff at least 2 rows, at least 2 data rows, every data row readable, and at least 2 kept points |
| DataParser.SortedColumns | apps/calculator/utils/data_parser.py:82-86 | the columns of sorted pairs zip back to them, and the x column ascends |
| DataParser.CsvSuccessValue | apps/calculator/utils/data_parser.py:79-86 | the result is the sorted kept pairs, unzipped |
| DataParser.CsvSuccessShape | apps/calculator/utils/data_parser.py:79-86 | on success the columns are equally long, at least 2, sorted by (x, y) with x ascending, and a permutation of the kept points |
| DataParser.InsertAfterAll | apps/calculator/utils/data_parser.py:83 | a pair not smaller than any other goes last |
| DataParser.SortSorted | apps/calculator/utils/data_parser.py:83 | sorting sorted pairs changes nothing |
| DataParser.ValidateDataForMethod | apps/calculator/utils/data_parser.py:91-100 | no errors are ever reported |
| DataParser.CommaSpaceSnoc | apps/calculator/utils/data_parser.py:19 | adding a token to a ", "-join appends ", " and the token |
| DataParser.NumeralRow | apps/calculator/utils/data_parser.py:69-74 | a row of two numerals is readable and gives their point |
| DataParser.KeptAllComplete | apps/calculator/utils/data_parser.py:72-74 | rows that each hold two numbers are all kept, in order |
| DataParser.FiveTokensText | apps/calculator/utils/data_parser.py:19 | five tokens joined with ", " between neighbours are the ", "-join the splitter reads back |
| DataParser.FiveTokens | apps/calculator/utils/data_parser.py:19 | five plain tokens written with ", " between them split back into exactly those tokens, in order |
| DataParser.ExampleTokens | apps/calculator/tests.py:51-52 | the two test strings split into their five numerals |
| DataParser.ConvertsTo | apps/calculator/utils/data_parser.py:19-20 | tokens that each convert give exactly their values |
| DataParser.ExampleConverts | apps/calculator/tests.py:58-59 | the test numerals convert to the expected values |
| DataParser.ManualInputExample | apps/calculator/tests.py:49-59 | the manual-input test parses to [0..4] and [1, 4, 9, 16, 25] |
| DataParser.ExampleHeader | apps/calculator/tests.py:63 | "X,Y" is a header row |
| DataParser.ExampleReadable | apps/calculator/tests.py:63 | the test's data rows are all readable |
| DataParser.ExampleKept | apps/calculator/tests.py:63 | the test's data rows give the five points |
| DataParser.ExampleSorted | apps/calculator/utils/data_parser.py:83 | the five points are already sorted |
| DataParser.ExampleColumns | apps/calculator/utils/data_parser.py:84 | the five points unzip to the two columns |
| DataParser.CsvExample | apps/calculator/tests.py:61-70 | the CSV test parses to [0..4] and [1, 4, 9, 16, 25] |
| Agreement.SelfClose | apps/calculator/utils/integration_methods.py:38 | every width is close to itself |
| Agreement.GridIsUniform | core/methods.py:22-25 | the integrator's grid for a < b is a valid, exactly uniform calculator input of n intervals, with width h |
| Agreement.DescendingGridRejected | apps/calculator/utils/integration_methods.py:25-27 | the integrator's grid for a > b is refused by the calculator as not ascending |
| Agreement.TrapezoidalAgrees | core/methods.py:43-45 | the integrator's trapezoid equals the calculator's on the same grid |
| Agreement.IntegratorValue13 | core/methods.py:66-69 | the integrator's 1/3 result is h/3 times its closed-form weighted sum |
| Agreement.IntegratorValue38 | core/methods.py:91-94 | the integrator's 3/8 result is 3h/8 times its closed-form weighted sum |
| Agreement.EvenPartClosed13 | apps/calculator/utils/integration_methods.py:95-114 | the calculator's even branch is h/3 times the composite weights |
| Agreement.CalculatorClosed13 | apps/calculator/utils/integration_methods.py:95-114 | on uniform input with n even the 1/3 rule is h/3 times the composite weights |
| Agreement.GridClosed13 | core/methods.py:66-69 | the integrator's 1/3 formula is h/3 times the composite weights |
| Agreement.PurePartPanels38 | apps/calculator/utils/integration_methods.py:237-275 | the calculator's pure 3/8 branch is 3h/8 times n/3 panels |
| Agreement.CalculatorPanels38 | apps/calculator/utils/integration_methods.py:237-275 | on uniform input with n mod 3 = 0 the 3/8 rule is 3h/8 times n/3 panels |
| Agreement.GridPanels38 | core/methods.py:91-94 | the integrator's 3/8 formula is 3h/8 times n/3 panels |
| Agreement.CalculatorValue13 | apps/calculator/utils/integration_methods.py:95-114 | the calculator's loop-built 1/3 sum equals the integrator's closed form on the same samples |
| Agreement.CalculatorValue38 | apps/calculator/utils/integration_methods.py:240-275 | the calculator's grouped 3/8 sum equals the integrator's closed form on the same samples |
| Agreement.PureName13 | apps/calculator/utils/integration_methods.py:213 | uniform input with n even is named "Simpson's 1/3 Rule" |
| Agreement.PureName38 | apps/calculator/utils/integration_methods.py:389 | uniform input with n mod 3 = 0 is named "Simpson's 3/8 Rule" |
| Agreement.SimpsonOneThirdAgrees | core/methods.py:56-79 | for n even the integrator's 1/3 rule and the calculator's on its grid agree |
| Agreement.SimpsonThreeEighthsAgrees | core/methods.py:81-104 | for n mod 3 = 0 the integrator's 3/8 rule and the calculator's on its grid agree |
| Agreement.HybridWhereIntegratorRefuses | core/methods.py:63-89 | where the integrator raises for odd n (or n mod 3 ≠ 0), the calculator takes its hybrid path |
| Agreement.ValidParamsGiveIntegrator | io_layer/validator.py:1-15 | parameters that pass validation build an integrator whose grid the calculator accepts as uniform |
| Agreement.CsvResultIsCalculatorInput | apps/calculator/utils/data_parser.py:79-86 | a parsed CSV always passes the calculator's checks |
| Agreement.ManualResultAcceptedWhenAscending | apps/calculator/utils/data_parser.py:22-28 | parsed manual input passes the calculator's checks iff its x values ascend |

## Left out

- Floating point: rounding, NaN and infinities are not modelled. `np.allclose` and `np.isclose` are exact real inequalities. The summation order of `np.sum` and `sum` is immaterial over the reals.
- The step strings: their `:.6f` numeric formatting and wording. Each step is an event holding the numbers the string prints.
- The Django views, URLs, forms, admin and ORM models; the plotting and export utilities; the sample-data loader; the command line; and the function parser of `io_/parser.py`. The calculator's only caller in the loader is outside this model.
- `float()` and `csv.reader`: they are the parameter `toFloat` and the given rows. `float()`'s tolerance of surrounding whitespace is part of `toFloat`. Quoting and delimiters of CSV text are not modelled.
- Other whitespace: `strip()` is modelled for space, tab, newline, carriage return, vertical tab and form feed. The separators U+001C to U+001F and the non-ASCII characters Python also counts as whitespace are not modelled.
- IntegrationMethods.CompareAllMethods: the result is a map, so the insertion order of the three keys is not stated. Each rule succeeds on valid samples, so the `{'error': ...}` entry never arises in the model.
- IntegrationSpec.NewCalculator: the ValueError messages are the fixed texts of `IntegrationSpec.ErrorMessage`.
- Validator.ValidateParamsFirstFailure: the message for a >= b omits the rendering of a and b. Python's float repr is not modelled. Python's bool, an instance of int, is not a distinct case of `Validator.Number`.
- CoreMethods.NewIntegrator: n is an int. A float n, and the text of the ZeroDivisionError and IndexError messages, are not modelled. For negative n the grid is empty. The trapezoidal rule then fails with `NoPoints`, and so does each Simpson rule whose divisibility guard passes; a guard that fails raises first (n = -1 gives `OddIntervals` for Simpson 1/3).
- The integrand `f` is a total function `real -> real`. Exceptions raised inside `f` are not modelled.
- The two stale tests of `apps/calculator/tests.py` are not encoded. The first, at lines 33-36, expects Simpson 3/8 to raise on n = 4; the code takes the hybrid path. The second, at lines 85-87, expects errors from `validate_data_for_method`; the function always returns an empty dict.

## Findings

| source | as written | input that shows it | evidently intended | confidence | as-written member | corrected member |
|---|---|---|---|---|---|---|
| apps/calculator/utils/integration_methods.py:126-135 | with n = 1, `simpson_y = y[:-1]` is the single point y0, and its 1/3 weighted sum is y0 + y0, so the Simpson head over zero intervals adds (h/3)·2·y0 | x = [0, 1], y = [1, 1]: the rule as written gives 5/3 where the integral is 1 (IntegrationProperties.Simpson13TwoPointsCounterexample) | a Simpson part over zero intervals contributes 0, leaving the single trapezoid (h/2)(y0 + y1) (IntegrationProperties.Simpson13TwoPointsAsWritten, IntegrationProperties.OddPartValue). The rule itself keeps the as-written head, so `IntegrationMethods.Simpson13Rule` returns what the source returns; the corrected hybrid is defined beside it | high; not executed | IntegrationSpec.Simpson13OddPartAsWritten | IntegrationSpec.Simpson13OddPart |

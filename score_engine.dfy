/**
 * The shared score calculation (src/utils/calculatorUtils.ts): the internal
 * grade sums, the exam totals and the gated extras combined either by simple
 * addition or, in the ratio pattern, rescaled to a 1000-point total split by
 * the school's test:internal ratio; and the pass/fail/unknown verdict per
 * school threshold.
 */
module ScoreEngine {
  import opened Wrappers
  import opened Scores

  datatype Pattern = Simple | Ratio

  /** Everything the user entered: grades, exam scores, weights, extras and the flags. */
  datatype CalcInput = CalcInput(grades: Grades, exam: PerSubject, weights: PerSubject, extras: Extras,
                                 useWeights: bool, enabled: set<ExtraKind>)

  datatype Results = Results(
    naishinRawNoWeight: real,
    naishinRaw: real,
    naishinMaxRaw: real,
    naishinScaled: real,
    testRawTotal: real,
    testWeightedTotal: real,
    extraTotal: real,
    naishinFinal: real,
    testFinal: real,
    finalScore: real)

  /** The total of the ratio pattern. */
  const FinalMax := 1000.0

  /** `testWeightedMax`: full marks under the weights, or 500 without them. */
  function TestMax(w: PerSubject, useWeights: bool): real {
    if useWeights then 100.0 * WeightSum(w) else 500.0
  }

  /**
   * The ratio pattern's two parts: each raw total as a fraction of its
   * maximum, times the share of 1000 points its side of the ratio gets.
   */
  function RatioParts(naishinRaw: real, naishinMax: real, testWeighted: real, testMax: real,
                      ratioTest: real, ratioNaishin: real): (parts: (real, real))
    requires ratioTest + ratioNaishin != 0.0 && naishinMax != 0.0 && testMax != 0.0
  {
    var totalRatio := ratioTest + ratioNaishin;
    var naishinMaxComponent := FinalMax * (ratioNaishin / totalRatio);
    var testMaxComponent := FinalMax * (ratioTest / totalRatio);
    ((naishinRaw / naishinMax) * naishinMaxComponent, (testWeighted / testMax) * testMaxComponent)
  }

  lemma FractionOfOne(x: real, m: real)
    requires 0.0 <= x <= m && m > 0.0
    ensures 0.0 <= x / m <= 1.0
  {
  }

  lemma PartOf(a: real, b: real)
    requires 0.0 <= a <= 1.0 && b >= 0.0
    ensures 0.0 <= a * b <= b
  {
  }

  /** The internal side's share of the 1000 points: `1000 × ratioNaishin / (ratioTest + ratioNaishin)`. */
  function NaishinShare(ratioTest: real, ratioNaishin: real): real
    requires ratioTest + ratioNaishin != 0.0
  {
    FinalMax * ratioNaishin / (ratioTest + ratioNaishin)
  }

  /** The two shares of 1000 points add up to 1000. */
  lemma SharesAddUp(ratioTest: real, ratioNaishin: real)
    requires ratioTest + ratioNaishin != 0.0
    ensures FinalMax * (ratioNaishin / (ratioTest + ratioNaishin)) + FinalMax * (ratioTest / (ratioTest + ratioNaishin)) == FinalMax
    ensures FinalMax * (ratioNaishin / (ratioTest + ratioNaishin)) == NaishinShare(ratioTest, ratioNaishin)
  {
    var t := ratioTest + ratioNaishin;
    var x, y := ratioNaishin / t, ratioTest / t;
    assert x * t == ratioNaishin && y * t == ratioTest;
    assert (x + y) * t == x * t + y * t;
    assert x + y == 1.0;
    assert FinalMax * x + FinalMax * y == FinalMax * (x + y);
  }

  /** With non-negative ratios both shares are non-negative. */
  lemma SharesNonNegative(ratioTest: real, ratioNaishin: real)
    requires ratioTest >= 0.0 && ratioNaishin >= 0.0 && ratioTest + ratioNaishin > 0.0
    ensures FinalMax * (ratioNaishin / (ratioTest + ratioNaishin)) >= 0.0
    ensures FinalMax * (ratioTest / (ratioTest + ratioNaishin)) >= 0.0
  {
    var t := ratioTest + ratioNaishin;
    assert ratioNaishin / t >= 0.0 && ratioTest / t >= 0.0;
  }

  /** With non-negative ratios and raw totals within their maxima, the two parts together lie in 0..1000. */
  lemma RatioPartsBounded(naishinRaw: real, naishinMax: real, testWeighted: real, testMax: real,
                          ratioTest: real, ratioNaishin: real)
    requires ratioTest >= 0.0 && ratioNaishin >= 0.0 && ratioTest + ratioNaishin > 0.0
    requires 0.0 <= naishinRaw <= naishinMax && 0.0 <= testWeighted <= testMax && naishinMax > 0.0 && testMax > 0.0
    ensures var parts := RatioParts(naishinRaw, naishinMax, testWeighted, testMax, ratioTest, ratioNaishin);
      0.0 <= parts.0 && 0.0 <= parts.1 && parts.0 + parts.1 <= FinalMax
  {
    var t := ratioTest + ratioNaishin;
    var nc, tc := FinalMax * (ratioNaishin / t), FinalMax * (ratioTest / t);
    SharesNonNegative(ratioTest, ratioNaishin);
    SharesAddUp(ratioTest, ratioNaishin);
    var fa, fb := naishinRaw / naishinMax, testWeighted / testMax;
    FractionOfOne(naishinRaw, naishinMax);
    FractionOfOne(testWeighted, testMax);
    PartOf(fa, nc);
    PartOf(fb, tc);
    var parts := RatioParts(naishinRaw, naishinMax, testWeighted, testMax, ratioTest, ratioNaishin);
    assert parts.0 == fa * nc && parts.1 == fb * tc;
    assert 0.0 <= parts.0 <= nc && 0.0 <= parts.1 <= tc;
  }

  /** At both maxima the two parts make exactly 1000. */
  lemma RatioPartsAtMax(naishinMax: real, testMax: real, ratioTest: real, ratioNaishin: real)
    requires ratioTest + ratioNaishin != 0.0 && naishinMax != 0.0 && testMax != 0.0
    ensures var parts := RatioParts(naishinMax, naishinMax, testMax, testMax, ratioTest, ratioNaishin);
      parts.0 + parts.1 == FinalMax
  {
    assert naishinMax / naishinMax == 1.0 && testMax / testMax == 1.0;
    SharesAddUp(ratioTest, ratioNaishin);
  }

  /** The ratio pattern divides by zero when the ratios cancel or, with weights on, the weights sum to 0. */
  predicate Computable(input: CalcInput, pattern: Pattern, ratioTest: real, ratioNaishin: real) {
    pattern == Ratio ==> ratioTest + ratioNaishin != 0.0 && (input.useWeights ==> WeightSum(input.weights) != 0.0)
  }

  /**
   * `calculateResults(…)`: practical grades count double, the scaled
   * internal score is the weighted sum times `multiplier` (3 by default),
   * and the simple pattern adds everything while the ratio pattern rescales
   * the two sides to 1000 points.
   */
  function CalculateResults(input: CalcInput, pattern: Pattern, ratioTest: real, ratioNaishin: real, multiplier: real): (r: Results)
    requires Computable(input, pattern, ratioTest, ratioNaishin)
    ensures r.naishinRawNoWeight == RawNoWeight(input.grades)
    ensures r.naishinRaw == RawNoWeight(input.grades) + PracticalSum(input.grades)
    ensures r.naishinMaxRaw == 65.0
    ensures r.naishinScaled == r.naishinRaw * multiplier
    ensures r.testRawTotal == ExamTotal(input.exam)
    ensures r.testWeightedTotal == WeightedTotal(input.exam, input.weights, input.useWeights)
    ensures !input.useWeights ==> r.testWeightedTotal == r.testRawTotal
    ensures r.extraTotal == ExtraTotal(input.extras, input.enabled)
    ensures input.enabled == {} ==> r.extraTotal == 0.0
    ensures r.finalScore == r.naishinFinal + r.testFinal + r.extraTotal
    ensures pattern == Simple ==> r.naishinFinal == r.naishinScaled && r.testFinal == r.testWeightedTotal
    ensures pattern == Ratio ==>
      && r.naishinFinal == r.naishinRaw / 65.0 * NaishinShare(ratioTest, ratioNaishin)
      && r.testFinal == r.testWeightedTotal / TestMax(input.weights, input.useWeights) * (FinalMax - NaishinShare(ratioTest, ratioNaishin))
  {
    var naishinRawNoWeight := RawNoWeight(input.grades);
    var naishinRaw := RawWeighted(input.grades);
    var naishinScaled := naishinRaw * multiplier;
    var testRawTotal := ExamTotal(input.exam);
    var testWeightedTotal := WeightedTotal(input.exam, input.weights, input.useWeights);
    var extraTotal := ExtraTotal(input.extras, input.enabled);
    var parts := if pattern == Simple then (naishinScaled, testWeightedTotal)
      else (SharesAddUp(ratioTest, ratioNaishin);
            RatioParts(naishinRaw, 65.0, testWeightedTotal, TestMax(input.weights, input.useWeights), ratioTest, ratioNaishin));
    Results(naishinRawNoWeight, naishinRaw, 65.0, naishinScaled, testRawTotal, testWeightedTotal, extraTotal,
            parts.0, parts.1, parts.0 + parts.1 + extraTotal)
  }

  /** Inputs as the steps collect them: grades 1..5, scores 0..100, weights (when used) non-negative and not all 0. */
  ghost predicate InRange(input: CalcInput) {
    && GradesInRange(input.grades)
    && ScoresInRange(input.exam)
    && (input.useWeights ==> (forall t: Subject :: input.weights.Get(t) >= 0.0) && WeightSum(input.weights) > 0.0)
  }

  /** Ratio pattern: with non-negative ratios and in-range inputs, internal plus test part lies in 0..1000. */
  lemma RatioWithinThousand(input: CalcInput, ratioTest: real, ratioNaishin: real, multiplier: real)
    requires InRange(input)
    requires ratioTest >= 0.0 && ratioNaishin >= 0.0 && ratioTest + ratioNaishin > 0.0
    ensures var r := CalculateResults(input, Ratio, ratioTest, ratioNaishin, multiplier);
      0.0 <= r.naishinFinal + r.testFinal <= FinalMax && r.finalScore == r.naishinFinal + r.testFinal + r.extraTotal
  {
    GradeSumBounds(input.grades);
    WeightedTotalBounds(input.exam, input.weights, input.useWeights);
    RatioPartsBounded(RawWeighted(input.grades), 65.0, WeightedTotal(input.exam, input.weights, input.useWeights),
                      TestMax(input.weights, input.useWeights), ratioTest, ratioNaishin);
  }

  /** Ratio pattern: all grades 5 and all scores 100 give exactly 1000 before extras, whatever the weights. */
  lemma RatioFullMarks(input: CalcInput, ratioTest: real, ratioNaishin: real, multiplier: real)
    requires Computable(input, Ratio, ratioTest, ratioNaishin)
    requires input.grades == TopGrades && input.exam == PerSubject(100.0, 100.0, 100.0, 100.0, 100.0)
    ensures var r := CalculateResults(input, Ratio, ratioTest, ratioNaishin, multiplier);
      r.naishinFinal + r.testFinal == FinalMax
  {
    TopGradeSums();
    WeightedTotalAtFullMarks(input.weights, input.useWeights);
    RatioPartsAtMax(65.0, TestMax(input.weights, input.useWeights), ratioTest, ratioNaishin);
  }

  /** A ratio part is the whole share at its maximum and nothing at 0. */
  lemma PartAtEnds(x: real, m: real, share: real, part: real)
    requires m != 0.0 && part == x / m * share
    ensures x == m ==> part == share
    ensures x == 0.0 ==> part == 0.0
  {
  }

  /** Ratio pattern: the internal part is the whole internal share at 65 points and nothing at 0. */
  lemma NaishinPartAtEnds(input: CalcInput, ratioTest: real, ratioNaishin: real, multiplier: real)
    requires Computable(input, Ratio, ratioTest, ratioNaishin)
    ensures var r := CalculateResults(input, Ratio, ratioTest, ratioNaishin, multiplier);
      && (RawWeighted(input.grades) == 65.0 ==> r.naishinFinal == NaishinShare(ratioTest, ratioNaishin))
      && (RawWeighted(input.grades) == 0.0 ==> r.naishinFinal == 0.0)
  {
    var r := CalculateResults(input, Ratio, ratioTest, ratioNaishin, multiplier);
    PartAtEnds(r.naishinRaw, 65.0, NaishinShare(ratioTest, ratioNaishin), r.naishinFinal);
  }

  /** Ratio pattern: the test part is the whole test share at full weighted marks and nothing at 0. */
  lemma TestPartAtEnds(input: CalcInput, ratioTest: real, ratioNaishin: real, multiplier: real)
    requires Computable(input, Ratio, ratioTest, ratioNaishin)
    ensures var r := CalculateResults(input, Ratio, ratioTest, ratioNaishin, multiplier);
      var m := TestMax(input.weights, input.useWeights);
      && (WeightedTotal(input.exam, input.weights, input.useWeights) == m ==> r.testFinal == FinalMax - NaishinShare(ratioTest, ratioNaishin))
      && (WeightedTotal(input.exam, input.weights, input.useWeights) == 0.0 ==> r.testFinal == 0.0)
  {
    var r := CalculateResults(input, Ratio, ratioTest, ratioNaishin, multiplier);
    PartAtEnds(r.testWeightedTotal, TestMax(input.weights, input.useWeights), FinalMax - NaishinShare(ratioTest, ratioNaishin), r.testFinal);
  }

  /** Simple pattern with the default multiplier: at most 65 × 3 + 500 = 695 before extras, reached at full marks. */
  lemma SimpleMaximum(input: CalcInput, ratioTest: real, ratioNaishin: real)
    requires InRange(input) && !input.useWeights
    ensures var r := CalculateResults(input, Simple, ratioTest, ratioNaishin, 3.0);
      39.0 <= r.naishinFinal + r.testFinal <= 695.0
  {
    GradeSumBounds(input.grades);
    WeightedTotalBounds(input.exam, input.weights, false);
  }

  datatype School = School(
    id: int,
    name: string,
    patternType: Pattern,
    ratioTest: real,
    ratioNaishin: real,
    passRate80: Option<real>,
    passRate60: Option<real>,
    createdBy: int,
    createdAt: string,
    updatedAt: string,
    displayOrder: Option<int>)

  datatype BinaryStatus = Pass | Fail | Unknown

  /** `'pass'` at or above the threshold, `'fail'` below it, `'unknown'` without one. */
  function BinaryStatusOf(finalScore: real, threshold: Option<real>): (st: BinaryStatus)
    ensures st == Unknown <==> threshold.None?
    ensures st == Pass <==> threshold.Some? && finalScore >= threshold.value
    ensures st == Fail <==> threshold.Some? && finalScore < threshold.value
  {
    match threshold
    case None => Unknown
    case Some(t) => if finalScore >= t then Pass else Fail
  }

  /** A higher score never turns a pass into a fail, and passing a threshold passes every lower one. */
  lemma BinaryStatusMonotone(x: real, y: real, t: real, u: real)
    requires x <= y && u <= t
    ensures BinaryStatusOf(x, Some(t)) == Pass ==> BinaryStatusOf(y, Some(t)) == Pass
    ensures BinaryStatusOf(x, Some(t)) == Pass ==> BinaryStatusOf(x, Some(u)) == Pass
  {
  }

  /** A school with the score and both verdicts; the school's own fields are copied unchanged. */
  datatype SchoolResult = SchoolResult(school: School, finalScore: real, passRate80Status: BinaryStatus, passRate60Status: BinaryStatus)

  /** `calculateSchoolResults(schools, results)`: one entry per school, in order. */
  function CalculateSchoolResults(schools: seq<School>, results: Results): (rs: seq<SchoolResult>)
    ensures |rs| == |schools|
    ensures forall i :: 0 <= i < |schools| ==>
      && rs[i].school == schools[i]
      && rs[i].finalScore == results.finalScore
      && rs[i].passRate80Status == BinaryStatusOf(results.finalScore, schools[i].passRate80)
      && rs[i].passRate60Status == BinaryStatusOf(results.finalScore, schools[i].passRate60)
  {
    seq(|schools|, i requires 0 <= i < |schools| =>
      SchoolResult(schools[i], results.finalScore,
                   BinaryStatusOf(results.finalScore, schools[i].passRate80),
                   BinaryStatusOf(results.finalScore, schools[i].passRate60)))
  }
}

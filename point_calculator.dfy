/**
 * The stand-alone calculator page (src/pages/PointCalculatorPage.tsx), an
 * older variant of the score rules: the internal score is the plain sum of
 * the nine grades (no doubling), the multiplier is fixed at 3, the ratio
 * pattern normalises the internal score by 45, and the extras have no
 * speaking item.
 */
module PointCalculator {
  import opened Scores
  import opened ScoreEngine

  /** The page's own additional scores: four items, no speaking. */
  datatype PageExtras = PageExtras(interview: real, essay: real, practical: real, bonus: real)

  datatype PageInput = PageInput(grades: Grades, exam: PerSubject, weights: PerSubject, extras: PageExtras,
                                 useWeights: bool, enabled: set<ExtraKind>)

  datatype PageResults = PageResults(
    naishinRaw: real,
    naishinScaled: real,
    testRawTotal: real,
    testWeightedTotal: real,
    extraTotal: real,
    naishinFinal: real,
    testFinal: real,
    finalScore: real)

  /** `naishinMultiplier`: state without a setter, so always 3. */
  const PageMultiplier := 3.0

  /** The unweighted internal maximum the ratio pattern divides by. */
  const PageNaishinMax := 45.0

  /** The page's extras as the shared record, with no speaking points. */
  function AsExtras(x: PageExtras): Extras {
    Extras(x.interview, x.essay, x.practical, x.bonus, 0.0)
  }

  /** None of the page's four extras switched on. */
  predicate NoPageExtras(enabled: set<ExtraKind>) {
    Interview !in enabled && Essay !in enabled && Practical !in enabled && Bonus !in enabled
  }

  /** The four flag-gated extras; a speaking flag has nothing to gate here. */
  function PageExtraTotal(x: PageExtras, enabled: set<ExtraKind>): (r: real)
    ensures NoPageExtras(enabled) ==> r == 0.0
  {
    (if Interview in enabled then x.interview else 0.0)
    + (if Essay in enabled then x.essay else 0.0)
    + (if Practical in enabled then x.practical else 0.0)
    + (if Bonus in enabled then x.bonus else 0.0)
  }

  /** The page's extras are the shared rule's extras with speaking switched off, whatever the speaking points. */
  lemma PageExtraWithoutSpeaking(x: PageExtras, enabled: set<ExtraKind>, speaking: real)
    ensures PageExtraTotal(x, enabled)
      == ExtraTotal(Extras(x.interview, x.essay, x.practical, x.bonus, speaking), enabled - {Speaking})
  {
  }

  predicate PageComputable(input: PageInput, pattern: Pattern, ratioTest: real, ratioNaishin: real) {
    pattern == Ratio ==> ratioTest + ratioNaishin != 0.0 && (input.useWeights ==> WeightSum(input.weights) != 0.0)
  }

  /** The page's `calculateResults()`. */
  function PageCalculate(input: PageInput, pattern: Pattern, ratioTest: real, ratioNaishin: real): (r: PageResults)
    requires PageComputable(input, pattern, ratioTest, ratioNaishin)
    ensures r.naishinRaw == RawNoWeight(input.grades)
    ensures r.naishinScaled == 3.0 * r.naishinRaw
    ensures r.testRawTotal == ExamTotal(input.exam)
    ensures r.testWeightedTotal == WeightedTotal(input.exam, input.weights, input.useWeights)
    ensures !input.useWeights ==> r.testWeightedTotal == r.testRawTotal
    ensures r.extraTotal == PageExtraTotal(input.extras, input.enabled)
    ensures r.finalScore == r.naishinFinal + r.testFinal + r.extraTotal
    ensures pattern == Simple ==> r.naishinFinal == r.naishinScaled && r.testFinal == r.testWeightedTotal
    ensures pattern == Ratio ==>
      && r.naishinFinal == r.naishinRaw / PageNaishinMax * NaishinShare(ratioTest, ratioNaishin)
      && r.testFinal == r.testWeightedTotal / TestMax(input.weights, input.useWeights) * (FinalMax - NaishinShare(ratioTest, ratioNaishin))
  {
    var naishinRaw := RawNoWeight(input.grades);
    var naishinScaled := naishinRaw * PageMultiplier;
    var testRawTotal := ExamTotal(input.exam);
    var testWeightedTotal := WeightedTotal(input.exam, input.weights, input.useWeights);
    var extraTotal := PageExtraTotal(input.extras, input.enabled);
    var parts := if pattern == Simple then (naishinScaled, testWeightedTotal)
      else (SharesAddUp(ratioTest, ratioNaishin);
            RatioParts(naishinRaw, PageNaishinMax, testWeightedTotal, TestMax(input.weights, input.useWeights), ratioTest, ratioNaishin));
    PageResults(naishinRaw, naishinScaled, testRawTotal, testWeightedTotal, extraTotal, parts.0, parts.1, parts.0 + parts.1 + extraTotal)
  }

  /** With grades in 1..5 the scaled internal score lies in 27..135. */
  lemma PageScaledBounds(input: PageInput, pattern: Pattern, ratioTest: real, ratioNaishin: real)
    requires PageComputable(input, pattern, ratioTest, ratioNaishin) && GradesInRange(input.grades)
    ensures 27.0 <= PageCalculate(input, pattern, ratioTest, ratioNaishin).naishinScaled <= 135.0
  {
    GradeSumBounds(input.grades);
  }

  /** Ratio pattern: in-range inputs keep the internal and test parts within 0..1000. */
  lemma PageRatioWithinThousand(input: PageInput, ratioTest: real, ratioNaishin: real)
    requires GradesInRange(input.grades) && ScoresInRange(input.exam)
    requires input.useWeights ==> (forall t: Subject :: input.weights.Get(t) >= 0.0) && WeightSum(input.weights) > 0.0
    requires ratioTest >= 0.0 && ratioNaishin >= 0.0 && ratioTest + ratioNaishin > 0.0
    ensures var r := PageCalculate(input, Ratio, ratioTest, ratioNaishin);
      0.0 <= r.naishinFinal + r.testFinal <= FinalMax
  {
    GradeSumBounds(input.grades);
    WeightedTotalBounds(input.exam, input.weights, input.useWeights);
    RatioPartsBounded(RawNoWeight(input.grades), PageNaishinMax, WeightedTotal(input.exam, input.weights, input.useWeights),
                      TestMax(input.weights, input.useWeights), ratioTest, ratioNaishin);
  }

  /** Ratio pattern: the internal part is the whole internal share at 45 points and nothing at 0. */
  lemma PageNaishinPartAtEnds(input: PageInput, ratioTest: real, ratioNaishin: real)
    requires PageComputable(input, Ratio, ratioTest, ratioNaishin)
    ensures var r := PageCalculate(input, Ratio, ratioTest, ratioNaishin);
      && (RawNoWeight(input.grades) == PageNaishinMax ==> r.naishinFinal == NaishinShare(ratioTest, ratioNaishin))
      && (RawNoWeight(input.grades) == 0.0 ==> r.naishinFinal == 0.0)
  {
    var r := PageCalculate(input, Ratio, ratioTest, ratioNaishin);
    PartAtEnds(r.naishinRaw, PageNaishinMax, NaishinShare(ratioTest, ratioNaishin), r.naishinFinal);
  }

  /** Ratio pattern: all grades 5, all scores 100 and no extras give exactly 1000. */
  lemma PageRatioFullMarks(input: PageInput, ratioTest: real, ratioNaishin: real)
    requires PageComputable(input, Ratio, ratioTest, ratioNaishin)
    requires input.grades == TopGrades && input.exam == PerSubject(100.0, 100.0, 100.0, 100.0, 100.0)
    requires NoPageExtras(input.enabled)
    ensures PageCalculate(input, Ratio, ratioTest, ratioNaishin).finalScore == FinalMax
  {
    TopGradeSums();
    WeightedTotalAtFullMarks(input.weights, input.useWeights);
    RatioPartsAtMax(PageNaishinMax, TestMax(input.weights, input.useWeights), ratioTest, ratioNaishin);
  }

  /** The page's input seen by the shared engine, with speaking switched off. */
  function AsCalcInput(input: PageInput): CalcInput {
    CalcInput(input.grades, input.exam, input.weights, AsExtras(input.extras), input.useWeights, input.enabled - {Speaking})
  }

  /**
   * Against the shared engine: the test part and the extras always agree; the
   * page's internal score is the engine's unweighted sum, and in the ratio
   * pattern the two internal parts agree when all nine grades are equal.
   */
  lemma PageAgainstEngine(input: PageInput, pattern: Pattern, ratioTest: real, ratioNaishin: real)
    requires PageComputable(input, pattern, ratioTest, ratioNaishin)
    ensures Computable(AsCalcInput(input), pattern, ratioTest, ratioNaishin)
    ensures var p := PageCalculate(input, pattern, ratioTest, ratioNaishin);
      var e := CalculateResults(AsCalcInput(input), pattern, ratioTest, ratioNaishin, PageMultiplier);
      && p.naishinRaw == e.naishinRawNoWeight
      && p.testFinal == e.testFinal
      && p.extraTotal == e.extraTotal
      && (pattern == Ratio && UniformGrades(input.grades) ==> p.naishinFinal == e.naishinFinal)
  {
    PageExtraWithoutSpeaking(input.extras, input.enabled, 0.0);
    if pattern == Ratio && UniformGrades(input.grades) {
      var g := input.grades.japanese;
      assert RawNoWeight(input.grades) == 9.0 * g;
      assert RawWeighted(input.grades) == 13.0 * g;
      assert RawNoWeight(input.grades) / PageNaishinMax == RawWeighted(input.grades) / 65.0;
    }
  }

  /** All nine grades the same. */
  predicate UniformGrades(g: Grades) {
    g.math == g.japanese && g.english == g.japanese && g.social == g.japanese && g.science == g.japanese
    && g.techHome == g.japanese && g.pe == g.japanese && g.music == g.japanese && g.art == g.japanese
  }
}

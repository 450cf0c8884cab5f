/**
 * The results step of the calculator (src/components/calculator/ResultsStep.tsx):
 * a slider total spread over the five exam subjects in proportion to the
 * entered scores, science taking the rounding remainder; a four-band verdict
 * per threshold; and every selected school scored under its own pattern and
 * ratio against the same spread scores.
 */
module ResultsStep {
  import opened Wrappers
  import opened Scores
  import opened ScoreEngine

  /** `Math.round(x)`: the nearest integer, halves rounded up. */
  function Round(x: real): (r: int)
    ensures x - 0.5 < r as real <= x + 0.5
  {
    (x + 0.5).Floor
  }

  /** A whole number rounds to itself. */
  lemma RoundWhole(n: int)
    ensures Round(n as real) == n
  {
  }

  /** `score / originalTotal × T`, the subject's proportional share of the slider total. */
  function Share(score: real, originalTotal: real, t: real): real
    requires originalTotal != 0.0
  {
    (score / originalTotal) * t
  }

  /**
   * `adjustedExamScores`: four subjects get their rounded share, science gets
   * what is left of `t`, unclamped.
   */
  function AdjustedExamScores(s: PerSubject, t: real): (r: PerSubject)
    requires ExamTotal(s) != 0.0
    ensures r.japanese == Round(Share(s.japanese, ExamTotal(s), t)) as real
    ensures r.math == Round(Share(s.math, ExamTotal(s), t)) as real
    ensures r.english == Round(Share(s.english, ExamTotal(s), t)) as real
    ensures r.social == Round(Share(s.social, ExamTotal(s), t)) as real
    ensures ExamTotal(r) == t
  {
    var total := ExamTotal(s);
    var japanese := Round(Share(s.japanese, total, t)) as real;
    var math := Round(Share(s.math, total, t)) as real;
    var english := Round(Share(s.english, total, t)) as real;
    var social := Round(Share(s.social, total, t)) as real;
    PerSubject(japanese, math, english, social, t - japanese - math - english - social)
  }

  /** The five proportional shares add up to the slider total. */
  lemma SharesSum(a: real, b: real, c: real, d: real, e: real, t: real)
    requires a + b + c + d + e != 0.0
    ensures var total := a + b + c + d + e;
      Share(a, total, t) + Share(b, total, t) + Share(c, total, t) + Share(d, total, t) + Share(e, total, t) == t
  {
    var total := a + b + c + d + e;
    var ka, kb, kc, kd, ke := a / total, b / total, c / total, d / total, e / total;
    assert ka * total == a && kb * total == b && kc * total == c && kd * total == d && ke * total == e;
    assert (ka + kb + kc + kd + ke) * total == ka * total + kb * total + kc * total + kd * total + ke * total;
    assert ka + kb + kc + kd + ke == 1.0;
    assert ka * t + kb * t + kc * t + kd * t + ke * t == (ka + kb + kc + kd + ke) * t;
  }

  /**
   * Science lies within the four rounding errors of its own share: at most 2
   * below it and less than 2 above it, so it can leave 0..100.
   */
  lemma ScienceNearShare(s: PerSubject, t: real)
    requires ExamTotal(s) != 0.0
    ensures var r := AdjustedExamScores(s, t);
      var share := Share(s.science, ExamTotal(s), t);
      share - 2.0 <= r.science < share + 2.0
  {
    var total := ExamTotal(s);
    SharesSum(s.japanese, s.math, s.english, s.social, s.science, t);
    var r := AdjustedExamScores(s, t);
    RemainderNear(Share(s.japanese, total, t), Share(s.math, total, t), Share(s.english, total, t),
                  Share(s.social, total, t), Share(s.science, total, t), r, t);
  }

  lemma RemainderNear(a: real, b: real, c: real, d: real, e: real, r: PerSubject, t: real)
    requires a + b + c + d + e == t
    requires r.japanese == Round(a) as real && r.math == Round(b) as real
    requires r.english == Round(c) as real && r.social == Round(d) as real
    requires ExamTotal(r) == t
    ensures e - 2.0 <= r.science < e + 2.0
  {
  }

  /** Setting the slider back to the entered total gives back the entered scores when they are whole numbers. */
  lemma AdjustedAtOriginalTotal(s: PerSubject)
    requires ExamTotal(s) != 0.0
    requires forall t: Subject :: s.Get(t) == s.Get(t).Floor as real
    ensures AdjustedExamScores(s, ExamTotal(s)) == s
  {
    var total := ExamTotal(s);
    forall t: Subject ensures Share(s.Get(t), total, total) == s.Get(t) {
      var k := s.Get(t) / total;
      assert k * total == s.Get(t);
    }
    assert s.Get(Japanese) == s.japanese && s.Get(Math) == s.math && s.Get(English) == s.english && s.Get(Social) == s.social;
    RoundWhole(s.japanese.Floor);
    RoundWhole(s.math.Floor);
    RoundWhole(s.english.Floor);
    RoundWhole(s.social.Floor);
  }

  /** Scores 1, 1, 1, 1, 0 spread over a total of 2: the four halves round up and science becomes -2. */
  lemma ScienceCanGoNegative()
    ensures AdjustedExamScores(PerSubject(1.0, 1.0, 1.0, 1.0, 0.0), 2.0).science == -2.0
  {
    var s := PerSubject(1.0, 1.0, 1.0, 1.0, 0.0);
    assert Share(1.0, ExamTotal(s), 2.0) == 0.5;
    assert Round(0.5) == 1;
  }

  /** Fractional scores do not survive the round trip: 50.5 and 49.5 both round up, and science gives the extra point back. */
  lemma FractionalScoreRounded()
    ensures var s := PerSubject(50.5, 49.5, 0.0, 0.0, 0.0);
      AdjustedExamScores(s, ExamTotal(s)) == PerSubject(51.0, 50.0, 0.0, 0.0, -1.0)
  {
    var s := PerSubject(50.5, 49.5, 0.0, 0.0, 0.0);
    assert ExamTotal(s) == 100.0;
    assert Share(50.5, 100.0, 100.0) == 50.5 && Share(49.5, 100.0, 100.0) == 49.5;
    assert Round(50.5) == 51 && Round(49.5) == 50;
    assert Share(0.0, 100.0, 100.0) == 0.0 && Round(0.0) == 0;
  }

  datatype Band = Safe | Possible | Risky | Difficult | UnknownBand

  /** `getPassStatus(finalScore, target)`: the margin over the target, in bands of 30 points. */
  function PassStatus(finalScore: real, target: Option<real>): (b: Band)
    ensures b == UnknownBand <==> target.None?
    ensures b == Safe <==> target.Some? && finalScore - target.value >= 30.0
    ensures b == Possible <==> target.Some? && 0.0 <= finalScore - target.value < 30.0
    ensures b == Risky <==> target.Some? && -30.0 <= finalScore - target.value < 0.0
    ensures b == Difficult <==> target.Some? && finalScore - target.value < -30.0
  {
    match target
    case None => UnknownBand
    case Some(t) =>
      var diff := finalScore - t;
      if diff >= 30.0 then Safe
      else if diff >= 0.0 then Possible
      else if diff >= -30.0 then Risky
      else Difficult
  }

  /** The bands from worst to best. */
  function Rank(b: Band): nat {
    match b
    case UnknownBand => 0
    case Difficult => 0
    case Risky => 1
    case Possible => 2
    case Safe => 3
  }

  /** A higher score against the same target never lands in a worse band. */
  lemma PassStatusMonotone(x: real, y: real, t: real)
    requires x <= y
    ensures Rank(PassStatus(x, Some(t))) <= Rank(PassStatus(y, Some(t)))
  {
  }

  /** The two upper bands are exactly the binary classifier's pass, `Difficult` and `Risky` its fail. */
  lemma PassStatusRefinesBinary(finalScore: real, target: Option<real>)
    ensures (PassStatus(finalScore, target) == Safe || PassStatus(finalScore, target) == Possible)
      <==> BinaryStatusOf(finalScore, target) == Pass
    ensures (PassStatus(finalScore, target) == Risky || PassStatus(finalScore, target) == Difficult)
      <==> BinaryStatusOf(finalScore, target) == Fail
  {
  }

  /** One entry of `schoolResults`: the school, its own results and both bands. */
  datatype SchoolOutcome = SchoolOutcome(school: School, results: Results, passRate80Status: Band, passRate60Status: Band)

  /** Every school's pattern and ratio can be computed with these weights. */
  predicate AllComputable(input: CalcInput, schools: seq<School>) {
    forall i :: 0 <= i < |schools| ==> Computable(input, schools[i].patternType, schools[i].ratioTest, schools[i].ratioNaishin)
  }

  /** The input with the exam scores replaced by their spread over `t`. */
  function Adjusted(input: CalcInput, t: real): (r: CalcInput)
    requires ExamTotal(input.exam) != 0.0
    ensures ExamTotal(r.exam) == t
    ensures r == input.(exam := r.exam)
  {
    input.(exam := AdjustedExamScores(input.exam, t))
  }

  /**
   * `schoolResults`: one outcome per selected school, in order, each scored
   * with the school's own pattern and ratios (default multiplier 3) against
   * the spread scores.
   */
  function SchoolResults(input: CalcInput, schools: seq<School>, t: real): (rs: seq<SchoolOutcome>)
    requires ExamTotal(input.exam) != 0.0 && AllComputable(input, schools)
    ensures |rs| == |schools|
    ensures forall i :: 0 <= i < |schools| ==>
      && rs[i].school == schools[i]
      && rs[i].results.testRawTotal == t
      && rs[i].passRate80Status == PassStatus(rs[i].results.finalScore, schools[i].passRate80)
      && rs[i].passRate60Status == PassStatus(rs[i].results.finalScore, schools[i].passRate60)
  {
    var adjusted := Adjusted(input, t);
    seq(|schools|, i requires 0 <= i < |schools| =>
      var school := schools[i];
      var results := CalculateResults(adjusted, school.patternType, school.ratioTest, school.ratioNaishin, 3.0);
      SchoolOutcome(school, results, PassStatus(results.finalScore, school.passRate80), PassStatus(results.finalScore, school.passRate60)))
  }

  /** Each school's results are those `calculateResults` gives for that school alone. */
  lemma SchoolResultsPerSchool(input: CalcInput, schools: seq<School>, t: real, i: int)
    requires ExamTotal(input.exam) != 0.0 && AllComputable(input, schools) && 0 <= i < |schools|
    ensures var school := schools[i];
      SchoolResults(input, schools, t)[i].results
        == CalculateResults(Adjusted(input, t), school.patternType, school.ratioTest, school.ratioNaishin, 3.0)
  {
  }

  /** Two simple-pattern schools get the same score whatever their ratios. */
  lemma SimpleSchoolsAgree(input: CalcInput, schools: seq<School>, t: real, i: int, j: int)
    requires ExamTotal(input.exam) != 0.0 && AllComputable(input, schools)
    requires 0 <= i < |schools| && 0 <= j < |schools|
    requires schools[i].patternType == Simple && schools[j].patternType == Simple
    ensures SchoolResults(input, schools, t)[i].results.finalScore == SchoolResults(input, schools, t)[j].results.finalScore
  {
    SchoolResultsPerSchool(input, schools, t, i);
    SchoolResultsPerSchool(input, schools, t, j);
  }
}

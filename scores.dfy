/**
 * The inputs of the admission score calculator (src/types/calculator.ts and
 * the input steps): nine report-card grades, five exam scores with optional
 * per-subject weights, and the flag-gated additional scores; the sums every
 * variant of the calculator builds from them; and the input handlers, which
 * replace one field of a record and keep the rest.
 */
module Scores {
  /** The five subjects of the written exam, which are also the five academic report-card subjects. */
  datatype Subject = Japanese | Math | English | Social | Science

  /** Exam scores, or weights: one number per exam subject. */
  datatype PerSubject = PerSubject(japanese: real, math: real, english: real, social: real, science: real)
  {
    function Get(s: Subject): real {
      match s
      case Japanese => japanese
      case Math => math
      case English => english
      case Social => social
      case Science => science
    }

    /** `{ ...prev, [subject]: value }`. */
    function With(s: Subject, v: real): (r: PerSubject)
      ensures r.Get(s) == v
      ensures forall t :: t != s ==> r.Get(t) == Get(t)
    {
      match s
      case Japanese => this.(japanese := v)
      case Math => this.(math := v)
      case English => this.(english := v)
      case Social => this.(social := v)
      case Science => this.(science := v)
    }
  }

  /** A report-card subject: one of the five academic ones, or one of the four practical ones. */
  datatype GradeSubject = Academic(subject: Subject) | TechHome | Pe | Music | Art

  datatype Grades = Grades(japanese: real, math: real, english: real, social: real, science: real,
                           techHome: real, pe: real, music: real, art: real)
  {
    function Get(s: GradeSubject): real {
      match s
      case Academic(Japanese) => japanese
      case Academic(Math) => math
      case Academic(English) => english
      case Academic(Social) => social
      case Academic(Science) => science
      case TechHome => techHome
      case Pe => pe
      case Music => music
      case Art => art
    }

    /** `handleGradeChange(subject, value)`: `{ ...grades, [subject]: value }`. */
    function With(s: GradeSubject, v: real): (r: Grades)
      ensures r.Get(s) == v
      ensures forall t :: t != s ==> r.Get(t) == Get(t)
    {
      match s
      case Academic(Japanese) => this.(japanese := v)
      case Academic(Math) => this.(math := v)
      case Academic(English) => this.(english := v)
      case Academic(Social) => this.(social := v)
      case Academic(Science) => this.(science := v)
      case TechHome => this.(techHome := v)
      case Pe => this.(pe := v)
      case Music => this.(music := v)
      case Art => this.(art := v)
    }
  }

  /** Every grade is one the grade selector offers: 1 to 5. */
  ghost predicate GradesInRange(g: Grades) {
    forall s: GradeSubject :: 1.0 <= g.Get(s) <= 5.0
  }

  /** The sum of the five academic grades. */
  function AcademicSum(g: Grades): real {
    g.japanese + g.math + g.english + g.social + g.science
  }

  /** The sum of the four practical grades (technology and home economics, PE, music, art). */
  function PracticalSum(g: Grades): real {
    g.techHome + g.pe + g.music + g.art
  }

  /** `naishinRawNoWeight` / `rawNoWeight`: the plain sum of the nine grades, out of 45. */
  function RawNoWeight(g: Grades): (r: real)
    ensures r == AcademicSum(g) + PracticalSum(g)
  {
    g.japanese + g.math + g.english + g.social + g.science + g.techHome + g.pe + g.music + g.art
  }

  /** `naishinRaw` / `rawWithWeight`: the practical subjects count double, out of 65. */
  function RawWeighted(g: Grades): (r: real)
    ensures r == RawNoWeight(g) + PracticalSum(g)
    ensures r == AcademicSum(g) + 2.0 * PracticalSum(g)
  {
    g.japanese + g.math + g.english + g.social + g.science + g.techHome * 2.0 + g.pe * 2.0 + g.music * 2.0 + g.art * 2.0
  }

  /** With grades from 1 to 5, the plain sum lies in 9..45 and the weighted sum in 13..65. */
  lemma GradeSumBounds(g: Grades)
    requires GradesInRange(g)
    ensures 9.0 <= RawNoWeight(g) <= 45.0
    ensures 13.0 <= RawWeighted(g) <= 65.0
  {
    assert 1.0 <= g.Get(Academic(Japanese)) <= 5.0 && 1.0 <= g.Get(Academic(Math)) <= 5.0;
    assert 1.0 <= g.Get(Academic(English)) <= 5.0 && 1.0 <= g.Get(Academic(Social)) <= 5.0;
    assert 1.0 <= g.Get(Academic(Science)) <= 5.0 && 1.0 <= g.Get(TechHome) <= 5.0;
    assert 1.0 <= g.Get(Pe) <= 5.0 && 1.0 <= g.Get(Music) <= 5.0 && 1.0 <= g.Get(Art) <= 5.0;
  }

  /** All nine grades at the top of the scale. */
  const TopGrades := Grades(5.0, 5.0, 5.0, 5.0, 5.0, 5.0, 5.0, 5.0, 5.0)

  /** The maxima the calculator shows: 45 for the plain sum, 65 for the weighted one. */
  lemma TopGradeSums()
    ensures RawNoWeight(TopGrades) == 45.0 && RawWeighted(TopGrades) == 65.0
  {
  }

  /** Every exam score lies in 0..100. */
  ghost predicate ScoresInRange(s: PerSubject) {
    forall t: Subject :: 0.0 <= s.Get(t) <= 100.0
  }

  /** `testRawTotal`: the sum of the five exam scores. */
  function ExamTotal(s: PerSubject): real {
    s.japanese + s.math + s.english + s.social + s.science
  }

  /** The sum of the five weights. */
  function WeightSum(w: PerSubject): real {
    w.japanese + w.math + w.english + w.social + w.science
  }

  /** `testWeightedTotal`: the weighted sum when weights are on, the plain total otherwise. */
  function WeightedTotal(s: PerSubject, w: PerSubject, useWeights: bool): (r: real)
    ensures !useWeights ==> r == ExamTotal(s)
    ensures useWeights && w == PerSubject(1.0, 1.0, 1.0, 1.0, 1.0) ==> r == ExamTotal(s)
  {
    if useWeights then
      s.japanese * w.japanese + s.math * w.math + s.english * w.english + s.social * w.social + s.science * w.science
    else ExamTotal(s)
  }

  /**
   * Each weight multiplies its own subject's score: raising one subject's
   * score by `d` raises the weighted total by `d` times that subject's weight
   * and by nothing else.
   */
  lemma WeightedTotalPerSubject(s: PerSubject, w: PerSubject, t: Subject, d: real)
    ensures WeightedTotal(s.With(t, s.Get(t) + d), w, true) == WeightedTotal(s, w, true) + d * w.Get(t)
  {
    match t
    case Japanese => assert (s.japanese + d) * w.japanese == s.japanese * w.japanese + d * w.japanese;
    case Math => assert (s.math + d) * w.math == s.math * w.math + d * w.math;
    case English => assert (s.english + d) * w.english == s.english * w.english + d * w.english;
    case Social => assert (s.social + d) * w.social == s.social * w.social + d * w.social;
    case Science => assert (s.science + d) * w.science == s.science * w.science + d * w.science;
  }

  /** The scores with every subject at 0 but one. */
  function Only(t: Subject, v: real): (s: PerSubject)
    ensures s.Get(t) == v && forall u :: u != t ==> s.Get(u) == 0.0
  {
    PerSubject(0.0, 0.0, 0.0, 0.0, 0.0).With(t, v)
  }

  /** A score in one subject alone counts exactly that subject's weight times the score. */
  lemma WeightedTotalOfOnly(t: Subject, v: real, w: PerSubject)
    ensures WeightedTotal(Only(t, v), w, true) == v * w.Get(t)
  {
    WeightedTotalPerSubject(PerSubject(0.0, 0.0, 0.0, 0.0, 0.0), w, t, v);
  }

  /** Equal weights `k` on every subject scale the plain total by `k`. */
  lemma WeightedTotalUniform(s: PerSubject, k: real)
    ensures WeightedTotal(s, PerSubject(k, k, k, k, k), true) == k * ExamTotal(s)
  {
    assert k * ExamTotal(s) == k * s.japanese + k * s.math + k * s.english + k * s.social + k * s.science;
  }

  /** A product of a factor in `0..m` and a non-negative weight is at most `m` times the weight. */
  lemma ScaledBelow(x: real, m: real, w: real)
    requires 0.0 <= x <= m && w >= 0.0
    ensures 0.0 <= x * w <= m * w
  {
  }

  /** The weighted total never exceeds what full marks would give: `100 × (sum of weights)`, or 500 without weights. */
  lemma WeightedTotalBounds(s: PerSubject, w: PerSubject, useWeights: bool)
    requires ScoresInRange(s)
    requires useWeights ==> forall t: Subject :: w.Get(t) >= 0.0
    ensures 0.0 <= WeightedTotal(s, w, useWeights)
    ensures WeightedTotal(s, w, useWeights) <= if useWeights then 100.0 * WeightSum(w) else 500.0
  {
    assert 0.0 <= s.Get(Japanese) <= 100.0 && 0.0 <= s.Get(Math) <= 100.0 && 0.0 <= s.Get(English) <= 100.0;
    assert 0.0 <= s.Get(Social) <= 100.0 && 0.0 <= s.Get(Science) <= 100.0;
    if useWeights {
      assert w.Get(Japanese) >= 0.0 && w.Get(Math) >= 0.0 && w.Get(English) >= 0.0;
      assert w.Get(Social) >= 0.0 && w.Get(Science) >= 0.0;
      WeightedSumBelow(s.japanese, s.math, s.english, s.social, s.science, w.japanese, w.math, w.english, w.social, w.science);
    }
  }

  /** Five scores of at most 100 under non-negative weights sum to at most 100 times the weights. */
  lemma WeightedSumBelow(a1: real, a2: real, a3: real, a4: real, a5: real, w1: real, w2: real, w3: real, w4: real, w5: real)
    requires 0.0 <= a1 <= 100.0 && 0.0 <= a2 <= 100.0 && 0.0 <= a3 <= 100.0 && 0.0 <= a4 <= 100.0 && 0.0 <= a5 <= 100.0
    requires w1 >= 0.0 && w2 >= 0.0 && w3 >= 0.0 && w4 >= 0.0 && w5 >= 0.0
    ensures 0.0 <= a1 * w1 + a2 * w2 + a3 * w3 + a4 * w4 + a5 * w5 <= 100.0 * (w1 + w2 + w3 + w4 + w5)
  {
    ScaledBelow(a1, 100.0, w1);
    ScaledBelow(a2, 100.0, w2);
    ScaledBelow(a3, 100.0, w3);
    ScaledBelow(a4, 100.0, w4);
    ScaledBelow(a5, 100.0, w5);
    var p1, p2, p3, p4, p5 := a1 * w1, a2 * w2, a3 * w3, a4 * w4, a5 * w5;
    assert 0.0 <= p1 <= 100.0 * w1 && 0.0 <= p2 <= 100.0 * w2 && 0.0 <= p3 <= 100.0 * w3;
    assert 0.0 <= p4 <= 100.0 * w4 && 0.0 <= p5 <= 100.0 * w5;
    assert 100.0 * (w1 + w2 + w3 + w4 + w5) == 100.0 * w1 + 100.0 * w2 + 100.0 * w3 + 100.0 * w4 + 100.0 * w5;
  }

  /** Full marks in every subject reach that maximum exactly, whatever the weights. */
  lemma WeightedTotalAtFullMarks(w: PerSubject, useWeights: bool)
    ensures WeightedTotal(PerSubject(100.0, 100.0, 100.0, 100.0, 100.0), w, useWeights)
         == if useWeights then 100.0 * WeightSum(w) else 500.0
  {
  }

  /** The additional score categories, each with its own on/off flag. */
  datatype ExtraKind = Interview | Essay | Practical | Bonus | Speaking

  datatype Extras = Extras(interview: real, essay: real, practical: real, bonus: real, speaking: real)
  {
    function Get(k: ExtraKind): real {
      match k
      case Interview => interview
      case Essay => essay
      case Practical => practical
      case Bonus => bonus
      case Speaking => speaking
    }
  }

  /** The value of category `k` when its flag is in `enabled`, else 0. */
  function Gated(x: Extras, enabled: set<ExtraKind>, k: ExtraKind): real {
    if k in enabled then x.Get(k) else 0.0
  }

  /** `extraTotal`: the sum of the categories whose flag is on. */
  function ExtraTotal(x: Extras, enabled: set<ExtraKind>): (r: real)
    ensures enabled == {} ==> r == 0.0
  {
    Gated(x, enabled, Interview) + Gated(x, enabled, Essay) + Gated(x, enabled, Practical)
      + Gated(x, enabled, Bonus) + Gated(x, enabled, Speaking)
  }

  /** Switching one category on adds exactly its value; the other categories are unaffected. */
  lemma ExtraTotalEnable(x: Extras, enabled: set<ExtraKind>, k: ExtraKind)
    requires k !in enabled
    ensures ExtraTotal(x, enabled + {k}) == ExtraTotal(x, enabled) + x.Get(k)
  {
    var on := enabled + {k};
    forall j ensures Gated(x, on, j) == Gated(x, enabled, j) + (if j == k then x.Get(k) else 0.0) {
    }
  }

  /** `Math.max(0, Math.min(100, value))`. */
  function ClampScore(v: real): (r: real)
    ensures 0.0 <= r <= 100.0
    ensures 0.0 <= v <= 100.0 ==> r == v
    ensures v < 0.0 ==> r == 0.0
    ensures v > 100.0 ==> r == 100.0
  {
    var low := if v < 100.0 then v else 100.0;
    if 0.0 > low then 0.0 else low
  }

  lemma ClampIdempotent(v: real)
    ensures ClampScore(ClampScore(v)) == ClampScore(v)
  {
  }

  /** `handleExamScoreChange(subject, value)`: the clamped value for that subject, the other four kept. */
  function SetExamScore(s: PerSubject, t: Subject, v: real): (r: PerSubject)
    ensures r.Get(t) == ClampScore(v) && 0.0 <= r.Get(t) <= 100.0
    ensures forall u :: u != t ==> r.Get(u) == s.Get(u)
  {
    s.With(t, ClampScore(v))
  }

  /** Score changes keep every score in range. */
  lemma SetExamScoreKeepsRange(s: PerSubject, t: Subject, v: real)
    requires ScoresInRange(s)
    ensures ScoresInRange(SetExamScore(s, t, v))
  {
    var r := SetExamScore(s, t, v);
    forall u: Subject ensures 0.0 <= r.Get(u) <= 100.0 {
      if u != t {
        assert r.Get(u) == s.Get(u);
      }
    }
  }

  /** `handleWeightChange(subject, value)`: the value as given, without clamping. */
  function SetWeight(w: PerSubject, t: Subject, v: real): (r: PerSubject)
    ensures r.Get(t) == v
    ensures forall u :: u != t ==> r.Get(u) == w.Get(u)
  {
    w.With(t, v)
  }

  datatype SpeakingGrade = A | B | C | D | E | F

  /** The grade's place in A..F, A first. */
  function Position(g: SpeakingGrade): nat {
    match g
    case A => 0
    case B => 1
    case C => 2
    case D => 3
    case E => 4
    case F => 5
  }

  /** `getSpeakingScore`: A 20, B 16, C 12, D 8, E 4, F 0 points. */
  function SpeakingScore(g: SpeakingGrade): (points: real)
    ensures points == 20.0 - 4.0 * Position(g) as real
  {
    match g
    case A => 20.0
    case B => 16.0
    case C => 12.0
    case D => 8.0
    case E => 4.0
    case F => 0.0
  }

  /** A better grade never earns fewer points, and different grades earn different points. */
  lemma SpeakingScoreOrdered(g: SpeakingGrade, h: SpeakingGrade)
    ensures Position(g) <= Position(h) ==> SpeakingScore(g) >= SpeakingScore(h)
    ensures g != h ==> SpeakingScore(g) != SpeakingScore(h)
    ensures 0.0 <= SpeakingScore(g) <= 20.0
  {
  }

  /** `handleSpeakingGradeChange(grade)`: the speaking score follows the grade; the other four are kept. */
  function SetSpeakingGrade(x: Extras, g: SpeakingGrade): (r: Extras)
    ensures r.Get(Speaking) == SpeakingScore(g)
    ensures forall k :: k != Speaking ==> r.Get(k) == x.Get(k)
  {
    x.(speaking := SpeakingScore(g))
  }
}

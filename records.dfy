/**
 * The shared data of the exam calendar: one row of the school table, the four
 * completion milestones kept per chosen school, the selection phase and the
 * "will not apply" placeholder records.
 */
module Records {
  import opened Wrappers

  /**
   * One exam of one school. `deviation` is `None` where the table has no value;
   * `id` is only ever set by the mobile app.
   */
  datatype SchoolRecord = SchoolRecord(
    schoolName: string,
    area: string,
    deviation: Option<int>,
    category: string,
    examName: string,
    applyStart: string,
    applyEnd: string,
    examDate: string,
    resultDate: string,
    annual: string,
    refund: string,
    id: Option<string>)

  /** The four milestones a user ticks off for a chosen school. */
  datatype CompletionStatus = CompletionStatus(
    applyStartDone: bool,
    applyEndDone: bool,
    examDateDone: bool,
    resultDateDone: bool)
  {
    function Get(f: Milestone): bool {
      match f
      case ApplyStart => applyStartDone
      case ApplyEnd => applyEndDone
      case ExamDate => examDateDone
      case ResultDate => resultDateDone
    }

    /** `{ ...status, [f]: v }`: the one milestone set, the other three kept. */
    function With(f: Milestone, v: bool): (r: CompletionStatus)
      ensures r.Get(f) == v
      ensures forall g :: g != f ==> r.Get(g) == Get(g)
    {
      match f
      case ApplyStart => this.(applyStartDone := v)
      case ApplyEnd => this.(applyEndDone := v)
      case ExamDate => this.(examDateDone := v)
      case ResultDate => this.(resultDateDone := v)
    }
  }

  datatype Milestone = ApplyStart | ApplyEnd | ExamDate | ResultDate

  const Blank := CompletionStatus(false, false, false, false)

  /** `completions[key] || blank`: a missing entry reads as all milestones open. */
  function StatusOf(completions: map<string, CompletionStatus>, key: string): (st: CompletionStatus)
    ensures key !in completions ==> forall f :: !st.Get(f)
    ensures key in completions ==> st == completions[key]
  {
    if key in completions then completions[key] else Blank
  }

  /**
   * `toggleCompletion(key, field)`: the entry for `key` (blank when missing)
   * with `field` negated. The web page and the mobile app share this rule.
   */
  function ToggleCompletion(completions: map<string, CompletionStatus>, key: string, f: Milestone): map<string, CompletionStatus> {
    completions[key := StatusOf(completions, key).With(f, !StatusOf(completions, key).Get(f))]
  }

  /** The toggle adds `key` if missing, negates `f` there, keeps its other milestones and every other entry. */
  lemma ToggleCompletionSpec(completions: map<string, CompletionStatus>, key: string, f: Milestone)
    ensures var r := ToggleCompletion(completions, key, f);
      && r.Keys == completions.Keys + {key}
      && r[key].Get(f) == !StatusOf(completions, key).Get(f)
      && (forall g :: g != f ==> r[key].Get(g) == StatusOf(completions, key).Get(g))
      && (forall k :: k in completions && k != key ==> r[k] == completions[k])
  {
  }

  /** Two toggles of the same milestone restore the entry; a key that was missing stays as a blank entry. */
  lemma ToggleTwice(completions: map<string, CompletionStatus>, key: string, f: Milestone)
    ensures ToggleCompletion(ToggleCompletion(completions, key, f), key, f) == completions[key := StatusOf(completions, key)]
    ensures key in completions ==> ToggleCompletion(ToggleCompletion(completions, key, f), key, f) == completions
  {
    var once := ToggleCompletion(completions, key, f);
    var twice := ToggleCompletion(once, key, f);
    var st := StatusOf(completions, key);
    assert twice[key].Get(f) == st.Get(f);
    assert forall g :: twice[key].Get(g) == st.Get(g);
    assert twice[key] == st;
  }

  /** Toggles of two different milestones, or of two different keys, commute. */
  lemma ToggleCommutes(completions: map<string, CompletionStatus>, k1: string, f1: Milestone, k2: string, f2: Milestone)
    requires k1 != k2 || f1 != f2
    ensures ToggleCompletion(ToggleCompletion(completions, k1, f1), k2, f2)
         == ToggleCompletion(ToggleCompletion(completions, k2, f2), k1, f1)
  {
    if k1 == k2 {
      ToggleSameKeyCommutes(completions, k1, f1, f2);
    } else {
      ToggleOtherKeysCommute(completions, k1, f1, k2, f2);
    }
  }

  lemma ToggleSameKeyCommutes(completions: map<string, CompletionStatus>, k: string, f1: Milestone, f2: Milestone)
    requires f1 != f2
    ensures ToggleCompletion(ToggleCompletion(completions, k, f1), k, f2)
         == ToggleCompletion(ToggleCompletion(completions, k, f2), k, f1)
  {
    var st := StatusOf(completions, k);
    var a := st.With(f1, !st.Get(f1));
    var b := st.With(f2, !st.Get(f2));
    assert a.Get(f2) == st.Get(f2) && b.Get(f1) == st.Get(f1);
    WithCommutes(st, f1, !st.Get(f1), f2, !st.Get(f2));
  }

  lemma ToggleOtherKeysCommute(completions: map<string, CompletionStatus>, k1: string, f1: Milestone, k2: string, f2: Milestone)
    requires k1 != k2
    ensures ToggleCompletion(ToggleCompletion(completions, k1, f1), k2, f2)
         == ToggleCompletion(ToggleCompletion(completions, k2, f2), k1, f1)
  {
    var s1, s2 := StatusOf(completions, k1), StatusOf(completions, k2);
    var t1, t2 := s1.With(f1, !s1.Get(f1)), s2.With(f2, !s2.Get(f2));
    assert completions[k1 := t1][k2 := t2] == completions[k2 := t2][k1 := t1];
  }

  /** Setting two different milestones gives the same status in either order. */
  lemma WithCommutes(st: CompletionStatus, f1: Milestone, v1: bool, f2: Milestone, v2: bool)
    requires f1 != f2
    ensures st.With(f1, v1).With(f2, v2) == st.With(f2, v2).With(f1, v1)
  {
    match f1
    case ApplyStart =>
    case ApplyEnd =>
    case ExamDate =>
    case ResultDate =>
  }

  datatype Phase = Start | Select | Summary

  /** The name the placeholder carries on the per-date "will not apply" choice. */
  const NoApplyJa := "志願しない"

  /** The name the web page's fill-all action gives its placeholders. */
  const NoApplyKo := "지원하지 않음"

  /** A placeholder record for `date`: every text field empty, no deviation. */
  function Placeholder(name: string, date: string, id: Option<string>): (r: SchoolRecord)
    ensures r.schoolName == name && r.examDate == date && r.id == id
    ensures r.deviation.None? && r.examName == ""
  {
    SchoolRecord(name, "", None, "", "", "", "", date, "", "", "", id)
  }

  /** Every date that `selections` holds maps to a record of that date. */
  ghost predicate KeyedByDate(selections: map<string, SchoolRecord>) {
    forall d :: d in selections ==> selections[d].examDate == d
  }

  /** Storing a record under its own exam date keeps the choices keyed by date. */
  lemma KeyedByDateStore(selections: map<string, SchoolRecord>, r: SchoolRecord)
    requires KeyedByDate(selections)
    ensures KeyedByDate(selections[r.examDate := r])
  {
  }

  /** `orderedDates.every(d => sel[d])`. */
  predicate AllChosen(dates: seq<string>, sel: map<string, SchoolRecord>) {
    forall d :: d in dates ==> d in sel
  }

  /**
   * The choices after a "finish, not applying to the rest" loop has visited
   * `dates` in order: `filler(d)` for every date still open.
   */
  function FillOpenDates(sel: map<string, SchoolRecord>, dates: seq<string>, filler: string -> SchoolRecord): map<string, SchoolRecord> {
    if dates == [] then sel
    else
      var before := FillOpenDates(sel, dates[..|dates| - 1], filler);
      var d := dates[|dates| - 1];
      if d in before then before else before[d := filler(d)]
  }

  /** Entry by entry: existing choices stay, open dates get the filler, nothing else is added. */
  lemma {:induction false} FillOpenDatesEntries(sel: map<string, SchoolRecord>, dates: seq<string>, filler: string -> SchoolRecord)
    ensures var r := FillOpenDates(sel, dates, filler);
      && (forall k :: k in r <==> k in sel || k in dates)
      && (forall k :: k in sel ==> r[k] == sel[k])
      && (forall k :: k !in sel && k in dates ==> r[k] == filler(k))
  {
    if dates != [] {
      var init := dates[..|dates| - 1];
      FillOpenDatesEntries(sel, init, filler);
      assert dates == init + [dates[|dates| - 1]];
    }
  }

  /** After filling, every ordered date has a choice. */
  lemma FillOpenDatesChoosesAll(sel: map<string, SchoolRecord>, dates: seq<string>, filler: string -> SchoolRecord)
    ensures AllChosen(dates, FillOpenDates(sel, dates, filler))
  {
    FillOpenDatesEntries(sel, dates, filler);
  }

  /** Filling keeps choices keyed by their exam date when each filler carries its date. */
  lemma FillOpenDatesKeyedByDate(sel: map<string, SchoolRecord>, dates: seq<string>, filler: string -> SchoolRecord)
    requires KeyedByDate(sel)
    requires forall d :: filler(d).examDate == d
    ensures KeyedByDate(FillOpenDates(sel, dates, filler))
  {
    FillOpenDatesEntries(sel, dates, filler);
  }
}

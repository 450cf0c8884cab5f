/**
 * The web summary (src/components/Summary.tsx): which dates get a card, the
 * status a card shows and toggles, the deferred/refund mark colour and the
 * D-day text under each date.
 */
module Summary {
  import opened Wrappers
  import opened JsText
  import opened Records
  import opened Calendar
  import WebStorage
  import MobileDates
  import opened SchedulePage

  /** `isNoApply(r)`: no record, or a trimmed name that is one of the two "will not apply" names. */
  predicate IsNoApply(r: Option<SchoolRecord>) {
    r.None? || Trim(r.value.schoolName) == NoApplyJa || Trim(r.value.schoolName) == NoApplyKo
  }

  /** The dates among `dates` whose choice `shows` accepts, in the order of `dates`. */
  function Kept(dates: seq<string>, sel: map<string, SchoolRecord>, shows: SchoolRecord -> bool): (r: seq<string>)
    ensures forall d :: d in r <==> d in dates && d in sel && shows(sel[d])
    ensures |r| <= |dates|
  {
    if dates == [] then []
    else
      var d := dates[|dates| - 1];
      Kept(dates[..|dates| - 1], sel, shows) + (if d in sel && shows(sel[d]) then [d] else [])
  }

  /** Filtering commutes with concatenation, so the cards keep the order of the dates. */
  lemma {:induction false} KeptAppend(a: seq<string>, b: seq<string>, sel: map<string, SchoolRecord>, shows: SchoolRecord -> bool)
    ensures Kept(a + b, sel, shows) == Kept(a, sel, shows) + Kept(b, sel, shows)
  {
    if b != [] {
      assert (a + b)[..|a + b| - 1] == a + b[..|b| - 1];
      KeptAppend(a, b[..|b| - 1], sel, shows);
    } else {
      assert a + b == a;
    }
  }

  /** A record the web summary shows a card for. */
  predicate ShowsCard(r: SchoolRecord) {
    !IsNoApply(Some(r))
  }

  /** `selectedDates`: the dates with a real choice. */
  function SelectedDates(dates: seq<string>, sel: map<string, SchoolRecord>): (r: seq<string>)
    ensures forall d :: d in r <==> d in dates && d in sel && !IsNoApply(Some(sel[d]))
  {
    Kept(dates, sel, ShowsCard)
  }

  lemma TrimUnchanged(s: string)
    requires s != [] && !IsJsWhitespace(s[0]) && !IsJsWhitespace(s[|s| - 1])
    ensures Trim(s) == s
  {
  }

  /** The fillers of "finish, not applying to the rest" never get a card: the same dates show before and after. */
  lemma FillersHidden(dates: seq<string>, sel: map<string, SchoolRecord>, d: string)
    ensures d in SelectedDates(dates, FillOpenDates(sel, dates, NoApplyFiller)) <==> d in SelectedDates(dates, sel)
  {
    var filled := FillOpenDates(sel, dates, NoApplyFiller);
    FillOpenDatesEntries(sel, dates, NoApplyFiller);
    assert Trim(NoApplyKo) == NoApplyKo by {
      TrimUnchanged(NoApplyKo);
    }
    if d in dates && d in filled && d !in sel {
      assert filled[d] == NoApplyFiller(d);
      assert IsNoApply(Some(filled[d]));
    }
  }

  /** The per-date placeholder chosen from the dialog gets no card either. */
  lemma PlaceholderHidden(d: string)
    ensures IsNoApply(Some(Placeholder(NoApplyJa, d, None)))
  {
    TrimUnchanged(NoApplyJa);
  }

  /** A card reads its status under the record's two-part key; a missing entry reads as all open. */
  function CardStatus(completions: map<string, CompletionStatus>, rec: SchoolRecord): (st: CompletionStatus)
    ensures WebStorage.SchoolKey(rec) !in completions ==> st == Blank
    ensures WebStorage.SchoolKey(rec) in completions ==> st == completions[WebStorage.SchoolKey(rec)]
  {
    StatusOf(completions, WebStorage.SchoolKey(rec))
  }

  /** A card toggles under the same key it reads, so a tap flips exactly the milestone it shows. */
  lemma CardToggleShows(completions: map<string, CompletionStatus>, rec: SchoolRecord, f: Milestone)
    ensures var after := ToggleCompletion(completions, WebStorage.SchoolKey(rec), f);
      && CardStatus(after, rec).Get(f) == !CardStatus(completions, rec).Get(f)
      && forall g :: g != f ==> CardStatus(after, rec).Get(g) == CardStatus(completions, rec).Get(g)
  {
  }

  datatype Mark = Positive | Negative | Unmarked

  /** `getAnnualColor`: O, o or ○ is green, X, x or × red, anything else grey. */
  function AnnualMark(val: string): (m: Mark)
    ensures m == Positive <==> val == "O" || val == "o" || val == "○"
    ensures m == Negative <==> val == "X" || val == "x" || val == "×"
  {
    if val == "O" || val == "o" || val == "○" then Positive
    else if val == "X" || val == "x" || val == "×" then Negative
    else Unmarked
  }

  /**
   * `formatDday(md)`: '' unless `md` splits on '/' into exactly two parts
   * that both start with a number; otherwise the D-day label of that date in
   * the exam cycle.
   */
  function FormatDday(md: string, today: Today): (r: string)
    ensures md == "" ==> r == ""
    ensures var parts := Split(md, '/');
      r == "" <==> |parts| != 2 || ParseInt(parts[0]).None? || ParseInt(parts[1]).None?
    ensures var parts := Split(md, '/');
      r != "" ==> LabelDiff(r) == Some(DaysUntil(ParseInt(parts[0]).value, ParseInt(parts[1]).value, today))
  {
    if md == "" then ""
    else
      var parts := Split(md, '/');
      if |parts| != 2 then ""
      else
        var month := ParseInt(parts[0]);
        var day := ParseInt(parts[1]);
        if month.None? || day.None? then ""
        else
          LabelRoundTrip(DaysUntil(month.value, day.value, today));
          DdayLabel(DaysUntil(month.value, day.value, today))
  }

  /** For a well-formed "M/D" the web and mobile D-day texts agree. */
  lemma FormatDdayAgrees(a: string, b: string, today: Today)
    requires '/' !in a && '/' !in b
    ensures FormatDday(a + "/" + b, today) == MobileDates.CalcDday(a + "/" + b, today)
  {
    MobileDates.FirstTwoParts(a, b, "");
    var s := a + "/" + b;
    assert s[|a|] == '/';
    SplitAtFirst(a, '/', b);
    SplitWithoutSeparator(b, '/');
  }

  /** A date with a third part gets no web D-day, though the mobile app reads its first two parts. */
  lemma FormatDdayNeedsTwoParts(a: string, b: string, rest: string, today: Today)
    requires '/' !in a && '/' !in b
    ensures FormatDday(a + "/" + b + "/" + rest, today) == ""
  {
    var s := a + "/" + b + "/" + rest;
    assert s == a + ['/'] + (b + ['/'] + rest);
    SplitAtFirst(a, '/', b + ['/'] + rest);
    SplitAtFirst(b, '/', rest);
  }
}

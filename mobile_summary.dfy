/**
 * The mobile summary (mobile/src/components/Summary.tsx): which dates get a
 * card, and the keys a card reads its status from and writes its toggles to.
 */
module MobileSummary {
  import opened Wrappers
  import opened Records
  import opened MobileStorage
  import MobileApp
  import Summary

  /** A record the mobile summary shows: any name but exactly '志願しない' (no trimming, no Korean name). */
  predicate ShowsCard(r: SchoolRecord) {
    r.schoolName != NoApplyJa
  }

  /** `selected`: the dates whose choice is not the '志願しない' placeholder, in the order of `dates`. */
  function SelectedDates(dates: seq<string>, sel: map<string, SchoolRecord>): (r: seq<string>)
    ensures forall d :: d in r <==> d in dates && d in sel && sel[d].schoolName != NoApplyJa
  {
    Summary.Kept(dates, sel, ShowsCard)
  }

  /** The fillers of `finishAllNoApply` never get a card. */
  lemma FillersHidden(dates: seq<string>, sel: map<string, SchoolRecord>, d: string)
    ensures d in SelectedDates(dates, FillOpenDates(sel, dates, MobileApp.NoApplyRecord)) <==> d in SelectedDates(dates, sel)
  {
    FillOpenDatesEntries(sel, dates, MobileApp.NoApplyRecord);
  }

  /** A name with a trailing space is shown, where the web summary would hide it. */
  lemma UntrimmedNameShown(d: string)
    ensures d in SelectedDates([d], map[d := Placeholder(NoApplyJa + " ", d, None)])
  {
    assert NoApplyJa + " " != NoApplyJa by {
      assert |NoApplyJa + " "| != |NoApplyJa|;
    }
  }

  /** The key a card reads its status from: `schoolKey(r)`. */
  function ReadKey(r: SchoolRecord): string {
    SchoolKey(r)
  }

  /** The key a card writes its toggles to, as written: `r.id || schoolKey(r)`. */
  function ToggleKeyAsWritten(r: SchoolRecord): (k: string)
    ensures r.id.Some? && r.id.value != "" ==> k == r.id.value
    ensures r.id.None? || r.id.value == "" ==> k == ReadKey(r)
  {
    if r.id.Some? && r.id.value != "" then r.id.value else SchoolKey(r)
  }

  /** The status a card shows (`completions[schoolKey(r)] || blank`). */
  function CardStatus(completions: map<string, CompletionStatus>, r: SchoolRecord): (st: CompletionStatus)
    ensures ReadKey(r) !in completions ==> st == Blank
    ensures ReadKey(r) in completions ==> st == completions[ReadKey(r)]
  {
    StatusOf(completions, ReadKey(r))
  }

  /** Every id `groupByDate` assigns is longer than, so different from, the record's completion key. */
  lemma TaggedIdIsNotKey(r: SchoolRecord, i: nat)
    ensures MobileApp.Tagged(r, i).id.value != ReadKey(MobileApp.Tagged(r, i))
    ensures MobileApp.Tagged(r, i).id.value != ""
  {
    var t := MobileApp.Tagged(r, i);
    SchoolKeyExtendsLegacy(t);
    assert |t.id.value| > |ReadKey(t)|;
  }

  /**
   * As written, tapping a milestone of any record that came from the table
   * (so carries an id) leaves the card's status as it was: the toggle is
   * stored under the id, the card reads under the school key.
   */
  lemma ToggleInvisibleAsWritten(completions: map<string, CompletionStatus>, r: SchoolRecord, i: nat, f: Milestone)
    ensures var t := MobileApp.Tagged(r, i);
      CardStatus(ToggleCompletion(completions, ToggleKeyAsWritten(t), f), t) == CardStatus(completions, t)
  {
    TaggedIdIsNotKey(r, i);
  }

  /** The key a card should write its toggles to: the one it reads. */
  function ToggleKey(r: SchoolRecord): (k: string)
    ensures k == ReadKey(r)
  {
    SchoolKey(r)
  }

  /** With the read key, a tap flips exactly the milestone the card shows and keeps the other three. */
  lemma ToggleShows(completions: map<string, CompletionStatus>, r: SchoolRecord, f: Milestone)
    ensures var after := ToggleCompletion(completions, ToggleKey(r), f);
      && CardStatus(after, r).Get(f) == !CardStatus(completions, r).Get(f)
      && forall g :: g != f ==> CardStatus(after, r).Get(g) == CardStatus(completions, r).Get(g)
  {
  }
}

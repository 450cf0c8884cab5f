/**
 * The web schedule page (src/pages/SchoolSchedulePage.tsx) as a state
 * machine: a phase, the ordered exam dates, the date being chosen, the
 * choice per date, the completion ticks per chosen school and the pending
 * choice in the confirmation dialog. Saving to browser storage mirrors the
 * state and is not modelled.
 */
module SchedulePage {
  import opened Wrappers
  import opened JsText
  import opened Records
  import WebStorage

  /** The web page's "will not apply" filler for date `d`. */
  function NoApplyFiller(d: string): (r: SchoolRecord)
    ensures r.schoolName == NoApplyKo && r.examDate == d && r.id.None?
  {
    Placeholder(NoApplyKo, d, None)
  }

  /** The completion keys that belong to some current choice. */
  function ValidKeys(sel: map<string, SchoolRecord>): set<string> {
    set r | r in sel.Values :: WebStorage.SchoolKey(r)
  }

  /** The completions the cleanup effect keeps: those whose key belongs to a current choice. */
  function Cleaned(completions: map<string, CompletionStatus>, sel: map<string, SchoolRecord>): (r: map<string, CompletionStatus>)
    ensures r.Keys <= completions.Keys
  {
    map k | k in completions && k in ValidKeys(sel) :: completions[k]
  }

  lemma CleanedByEntries(completions: map<string, CompletionStatus>, sel: map<string, SchoolRecord>, cleaned: map<string, CompletionStatus>)
    requires forall k :: k in cleaned <==> k in completions && k in ValidKeys(sel)
    requires forall k :: k in cleaned ==> cleaned[k] == completions[k]
    ensures cleaned == Cleaned(completions, sel)
  {
  }

  /** The cleanup effect's loop: copies the entries whose key belongs to a current choice into a fresh map. */
  method KeepValid(completions: map<string, CompletionStatus>, sel: map<string, SchoolRecord>)
    returns (cleaned: map<string, CompletionStatus>)
    ensures cleaned == Cleaned(completions, sel)
  {
    var validKeys := ValidKeys(sel);
    cleaned := map[];
    var todo := completions.Keys;
    ghost var done: set<string> := {};
    while todo != {}
      invariant todo + done == completions.Keys && todo !! done
      invariant forall k :: k in cleaned <==> k in done && k in validKeys
      invariant forall k :: k in cleaned ==> cleaned[k] == completions[k]
      decreases todo
    {
      var k :| k in todo;
      if k in validKeys {
        cleaned := cleaned[k := completions[k]];
      }
      todo := todo - {k};
      done := done + {k};
    }
    CleanedByEntries(completions, sel, cleaned);
  }

  /** Cleaning only filters, so an unchanged key count means nothing was removed. */
  lemma SizeCheckCatchesRemoval(completions: map<string, CompletionStatus>, sel: map<string, SchoolRecord>)
    requires |Cleaned(completions, sel).Keys| == |completions.Keys|
    ensures Cleaned(completions, sel) == completions
  {
    var r := Cleaned(completions, sel);
    if r.Keys != completions.Keys {
      assert exists k :: k in completions.Keys && k !in r.Keys by {
        if forall k :: k in completions.Keys ==> k in r.Keys {
          assert false;
        }
      }
      var k :| k in completions.Keys && k !in r.Keys;
      assert r.Keys <= completions.Keys - {k};
      SubsetCard(r.Keys, completions.Keys - {k});
    }
  }

  lemma {:induction false} SubsetCard<T>(a: set<T>, b: set<T>)
    requires a <= b
    ensures |a| <= |b|
  {
    if a != {} {
      var x :| x in a;
      SubsetCard(a - {x}, b - {x});
    }
  }

  class Page {
    var phase: Phase
    var orderedDates: seq<string>
    var currentIndex: int
    var selections: map<string, SchoolRecord>
    var completions: map<string, CompletionStatus>
    var modalRecord: Option<SchoolRecord>
    var modalOpen: bool
    var userDeviation: int

    /** The cursor stays on a date (or at 0 with no dates) and every choice sits under its exam date. */
    ghost predicate Valid()
      reads this
    {
      && 0 <= currentIndex
      && (currentIndex < |orderedDates| || currentIndex == 0)
      && KeyedByDate(selections)
    }

    /** The page once the grouped data has loaded, with the stored choices and completions. */
    constructor (dates: seq<string>, storedSelections: map<string, SchoolRecord>,
                 storedCompletions: map<string, CompletionStatus>, storedDeviation: Option<string>)
      requires KeyedByDate(storedSelections)
      ensures Valid()
      ensures phase == Start && orderedDates == dates && currentIndex == 0
      ensures selections == storedSelections && completions == storedCompletions
      ensures modalRecord.None? && !modalOpen
      ensures userDeviation == WebStorage.LoadUserDeviation(storedDeviation)
    {
      phase := Start;
      orderedDates := dates;
      currentIndex := 0;
      selections := storedSelections;
      completions := storedCompletions;
      modalRecord := None;
      modalOpen := false;
      userDeviation := WebStorage.LoadUserDeviation(storedDeviation);
    }

    /** `orderedDates[currentIndex]`, absent when out of range or empty (a falsy date). */
    function CurrentDate(): (d: Option<string>)
      reads this
      ensures d.Some? ==> 0 <= currentIndex < |orderedDates| && d.value == orderedDates[currentIndex] && d.value != ""
      ensures d.None? ==> !(0 <= currentIndex < |orderedDates|) || orderedDates[currentIndex] == ""
    {
      if 0 <= currentIndex < |orderedDates| && orderedDates[currentIndex] != "" then Some(orderedDates[currentIndex])
      else None
    }

    /** The start screen's button: reloads the deviation and opens the selection phase. */
    method BeginSelection(storedDeviation: Option<string>)
      modifies this
      ensures phase == Select && userDeviation == WebStorage.LoadUserDeviation(storedDeviation)
      ensures orderedDates == old(orderedDates) && currentIndex == old(currentIndex)
      ensures selections == old(selections) && completions == old(completions)
      ensures modalRecord == old(modalRecord) && modalOpen == old(modalOpen)
    {
      userDeviation := WebStorage.LoadUserDeviation(storedDeviation);
      phase := Select;
    }

    /** `handleSelectRecord`: the record waits in the dialog for confirmation. */
    method SelectRecord(rec: SchoolRecord)
      modifies this
      ensures modalRecord == Some(rec) && modalOpen
      ensures phase == old(phase) && orderedDates == old(orderedDates) && currentIndex == old(currentIndex)
      ensures selections == old(selections) && completions == old(completions) && userDeviation == old(userDeviation)
    {
      modalRecord := Some(rec);
      modalOpen := true;
    }

    /** The per-date "will not apply" button: offers the '志願しない' placeholder for the current date, if there is one. */
    method SelectNoApply()
      modifies this
      ensures CurrentDate().Some? ==> modalRecord == Some(Placeholder(NoApplyJa, CurrentDate().value, None)) && modalOpen
      ensures CurrentDate().None? ==> modalRecord == old(modalRecord) && modalOpen == old(modalOpen)
      ensures phase == old(phase) && orderedDates == old(orderedDates) && currentIndex == old(currentIndex)
      ensures selections == old(selections) && completions == old(completions) && userDeviation == old(userDeviation)
    {
      var d := CurrentDate();
      if d.Some? {
        modalRecord := Some(Placeholder(NoApplyJa, d.value, None));
        modalOpen := true;
      }
    }

    /** `cancelSelection`: closes the dialog, choosing nothing. */
    method CancelSelection()
      modifies this
      ensures modalRecord.None? && !modalOpen
      ensures phase == old(phase) && orderedDates == old(orderedDates) && currentIndex == old(currentIndex)
      ensures selections == old(selections) && completions == old(completions) && userDeviation == old(userDeviation)
    {
      modalOpen := false;
      modalRecord := None;
    }

    /**
     * `confirmSelection`: stores the pending record under its exam date, then
     * moves to the next date, or, at the last date, to the summary when every
     * date has a choice. With no dates at all, -1 equals the last index, so
     * the summary opens too.
     */
    method ConfirmSelection()
      requires Valid()
      modifies this
      ensures Valid()
      ensures orderedDates == old(orderedDates) && completions == old(completions) && userDeviation == old(userDeviation)
      ensures old(modalRecord).None? ==>
        && selections == old(selections) && phase == old(phase) && currentIndex == old(currentIndex)
        && modalRecord == old(modalRecord) && modalOpen == old(modalOpen)
      ensures old(modalRecord).Some? ==>
        var rec := old(modalRecord).value;
        var i := IndexOf(orderedDates, rec.examDate);
        && selections == old(selections)[rec.examDate := rec]
        && modalRecord.None? && !modalOpen
        && currentIndex == (if 0 <= i < |orderedDates| - 1 then i + 1 else old(currentIndex))
        && phase == (if i == |orderedDates| - 1 && AllChosen(orderedDates, selections) then Summary else old(phase))
    {
      if modalRecord.None? {
        return;
      }
      var rec := modalRecord.value;
      var date := rec.examDate;
      var next := selections[date := rec];
      selections := next;
      modalOpen := false;
      modalRecord := None;
      var idx := IndexOf(orderedDates, date);
      if idx >= 0 && idx < |orderedDates| - 1 {
        currentIndex := idx + 1;
      } else if idx == |orderedDates| - 1 {
        if AllChosen(orderedDates, next) {
          phase := Summary;
        }
      }
    }

    /** `allSelected`: at least one date, and every date has a choice. */
    function AllSelected(): (b: bool)
      reads this
      ensures b <==> |orderedDates| > 0 && forall d :: d in orderedDates ==> d in selections
    {
      |orderedDates| > 0 && AllChosen(orderedDates, selections)
    }

    /** `finishToSummary`: the summary opens only when every date has a choice. */
    method FinishToSummary()
      modifies this
      ensures phase == if old(AllSelected()) then Summary else old(phase)
      ensures orderedDates == old(orderedDates) && currentIndex == old(currentIndex) && userDeviation == old(userDeviation)
      ensures selections == old(selections) && completions == old(completions)
      ensures modalRecord == old(modalRecord) && modalOpen == old(modalOpen)
    {
      if AllSelected() {
        phase := Summary;
      }
    }

    /** `toggleCompletion(key, field)`: flips one milestone of one key, as `Records.ToggleCompletion` states. */
    method ToggleCompletion(key: string, f: Milestone)
      modifies this
      ensures completions == Records.ToggleCompletion(old(completions), key, f)
      ensures phase == old(phase) && orderedDates == old(orderedDates) && currentIndex == old(currentIndex)
      ensures selections == old(selections) && userDeviation == old(userDeviation)
      ensures modalRecord == old(modalRecord) && modalOpen == old(modalOpen)
    {
      completions := Records.ToggleCompletion(completions, key, f);
    }

    /** `resetAll`: only when the user confirms, clears every choice and tick and returns to the start. */
    method ResetAll(confirmed: bool)
      requires Valid()
      modifies this
      ensures Valid()
      ensures !confirmed ==> phase == old(phase) && currentIndex == old(currentIndex) && selections == old(selections) && completions == old(completions)
      ensures confirmed ==> phase == Start && currentIndex == 0 && selections == map[] && completions == map[]
      ensures orderedDates == old(orderedDates) && userDeviation == old(userDeviation)
      ensures modalRecord == old(modalRecord) && modalOpen == old(modalOpen)
    {
      if !confirmed {
        return;
      }
      selections := map[];
      completions := map[];
      phase := Start;
      currentIndex := 0;
    }

    /**
     * `finishAllNoApply`: fills every date still open with the '지원하지 않음'
     * filler, keeps every existing choice and opens the summary, where
     * `AllSelected` then holds whenever there are dates.
     */
    method FinishAllNoApply()
      requires Valid()
      modifies this
      ensures Valid()
      ensures selections == FillOpenDates(old(selections), orderedDates, NoApplyFiller)
      ensures phase == Summary
      ensures |orderedDates| > 0 ==> AllSelected()
      ensures orderedDates == old(orderedDates) && currentIndex == old(currentIndex) && completions == old(completions)
      ensures userDeviation == old(userDeviation) && modalRecord == old(modalRecord) && modalOpen == old(modalOpen)
    {
      var next := selections;
      for i := 0 to |orderedDates|
        invariant next == FillOpenDates(selections, orderedDates[..i], NoApplyFiller)
      {
        var d := orderedDates[i];
        assert orderedDates[..i + 1][..i] == orderedDates[..i];
        if d !in next {
          next := next[d := NoApplyFiller(d)];
        }
      }
      assert orderedDates[..|orderedDates|] == orderedDates;
      FillOpenDatesKeyedByDate(selections, orderedDates, NoApplyFiller);
      FillOpenDatesChoosesAll(selections, orderedDates, NoApplyFiller);
      selections := next;
      phase := Summary;
    }

    /**
     * The cleanup effect: drops the completions of schools that are no longer
     * chosen. It writes only when the key count changed, which, since it only
     * filters, is exactly when something was dropped.
     */
    method CleanupCompletions()
      modifies this
      ensures completions == Cleaned(old(completions), selections)
      ensures phase == old(phase) && orderedDates == old(orderedDates) && currentIndex == old(currentIndex)
      ensures selections == old(selections) && userDeviation == old(userDeviation)
      ensures modalRecord == old(modalRecord) && modalOpen == old(modalOpen)
    {
      var cleaned := KeepValid(completions, selections);
      if |cleaned.Keys| != |completions.Keys| {
        completions := cleaned;
      } else {
        SizeCheckCatchesRemoval(completions, selections);
      }
    }

    /** The summary's revisit: back to choosing at `date`, only when it is one of the dates. */
    method Revisit(date: string)
      requires Valid()
      modifies this
      ensures Valid()
      ensures date in orderedDates ==> currentIndex == IndexOf(orderedDates, date) && orderedDates[currentIndex] == date && phase == Select
      ensures date !in orderedDates ==> currentIndex == old(currentIndex) && phase == old(phase)
      ensures orderedDates == old(orderedDates) && selections == old(selections) && completions == old(completions)
      ensures userDeviation == old(userDeviation) && modalRecord == old(modalRecord) && modalOpen == old(modalOpen)
    {
      var idx := IndexOf(orderedDates, date);
      if idx >= 0 {
        currentIndex := idx;
        phase := Select;
      }
    }
  }
}

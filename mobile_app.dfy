/**
 * The mobile app's screen state (mobile/App.tsx): grouping the bundled
 * school table by exam date with a per-record id, ordering the dates, and
 * the handlers that choose, fill, tick, revisit and reset, each choice
 * re-running the completion-key migration.
 */
module MobileApp {
  import opened Wrappers
  import opened JsText
  import opened Sorting
  import opened Records
  import opened MobileStorage
  import opened Grouping
  import WebStorage

  /** The id `groupByDate` gives the record at index `i`: `${examDate}__${schoolName}__${examName}__${i}`. */
  function RecordId(r: SchoolRecord, i: nat): string {
    r.examDate + "__" + r.schoolName + "__" + r.examName + "__" + NatToString(i)
  }

  /** The longest suffix of `t` without '_'. */
  function Tail(t: string): (s: string)
    ensures '_' !in s
  {
    if t == [] || t[|t| - 1] == '_' then [] else Tail(t[..|t| - 1]) + [t[|t| - 1]]
  }

  lemma {:induction false} TailAfterUnderscore(p: string, s: string)
    requires '_' !in s
    ensures Tail(p + "_" + s) == s
  {
    if s != [] {
      var init := s[..|s| - 1];
      TailAfterUnderscore(p, init);
      assert (p + "_" + s)[..|p + "_" + s| - 1] == p + "_" + init;
    }
  }

  /** Ids end in the record's index after the last '_', so records at different indices get different ids. */
  lemma RecordIdInjective(r1: SchoolRecord, i: nat, r2: SchoolRecord, j: nat)
    requires RecordId(r1, i) == RecordId(r2, j)
    ensures i == j
  {
    var s1, s2 := NatToString(i), NatToString(j);
    assert '_' !in s1 by { assert forall k :: 0 <= k < |s1| ==> IsDigit(s1[k]); }
    assert '_' !in s2 by { assert forall k :: 0 <= k < |s2| ==> IsDigit(s2[k]); }
    var p1 := r1.examDate + "__" + r1.schoolName + "__" + r1.examName + "_";
    var p2 := r2.examDate + "__" + r2.schoolName + "__" + r2.examName + "_";
    assert RecordId(r1, i) == p1 + "_" + s1;
    assert RecordId(r2, j) == p2 + "_" + s2;
    TailAfterUnderscore(p1, s1);
    TailAfterUnderscore(p2, s2);
    NatToStringInjective(i, j);
  }

  /** The record `i` with its `groupByDate` id. */
  function Tagged(r: SchoolRecord, i: nat): SchoolRecord {
    r.(id := Some(RecordId(r, i)))
  }

  /** The input records with their ids set, in input order. */
  function Tags(data: seq<SchoolRecord>): (t: seq<SchoolRecord>)
    ensures |t| == |data|
    ensures forall i :: 0 <= i < |data| ==> t[i] == Tagged(data[i], i)
  {
    if data == [] then [] else Tags(data[..|data| - 1]) + [Tagged(data[|data| - 1], |data| - 1)]
  }

  /** Every record of one batch carries its own id. */
  lemma TagIdsUnique(data: seq<SchoolRecord>, i: int, j: int)
    requires 0 <= i < |data| && 0 <= j < |data| && i != j
    ensures Tags(data)[i].id != Tags(data)[j].id
  {
    if Tags(data)[i].id == Tags(data)[j].id {
      RecordIdInjective(data[i], i, data[j], j);
    }
  }

  /** A date key "M/D": two non-empty runs of digits around one '/'. */
  function MonthDayKey(s: string): (md: Option<(nat, nat)>)
    ensures md.Some? ==> |Split(s, '/')| == 2
  {
    var parts := Split(s, '/');
    if |parts| == 2 && parts[0] != [] && parts[1] != [] && AllDigits(parts[0]) && AllDigits(parts[1])
    then Some((DigitsValue(parts[0]), DigitsValue(parts[1])))
    else None
  }

  function ComparePairs(x: (nat, nat), y: (nat, nat)): (c: int)
    ensures -1 <= c <= 1
    ensures c == 0 <==> x == y
    ensures c < 0 <==> x.0 < y.0 || (x.0 == y.0 && x.1 < y.1)
  {
    if x.0 < y.0 then -1 else if x.0 > y.0 then 1
    else if x.1 < y.1 then -1 else if x.1 > y.1 then 1
    else 0
  }

  /**
   * `a.localeCompare(b, undefined, {numeric: true})` on date keys: "M/D" keys
   * compare by month, then day, numerically; ties, and any other key, fall
   * back to code-point order.
   */
  function NumericCompare(a: string, b: string): (c: int)
    ensures -1 <= c <= 1
    ensures c == 0 <==> a == b
    ensures MonthDayKey(a).Some? && MonthDayKey(b).Some? && MonthDayKey(a).value.0 < MonthDayKey(b).value.0 ==> c < 0
  {
    var ka, kb := MonthDayKey(a), MonthDayKey(b);
    if ka.Some? && kb.Some? && ka.value != kb.value then ComparePairs(ka.value, kb.value)
    else CodePointCompare(a, b)
  }

  /** On "M/D" keys the comparison is a total order. */
  lemma NumericCompareConsistent(u: seq<string>)
    requires forall s :: s in u ==> MonthDayKey(s).Some?
    ensures ConsistentOn(NumericCompare, u)
  {
    forall a, b, c ensures ConsistentAt(NumericCompare, u, a, b, c) {
      if a in u && b in u && c in u {
        CodePointCompareAntisymmetric(a, b);
        if NumericCompare(a, b) <= 0 && NumericCompare(b, c) <= 0 {
          var ka, kb, kc := MonthDayKey(a).value, MonthDayKey(b).value, MonthDayKey(c).value;
          if ka == kb && kb == kc {
            CodePointCompareTransitive(a, b, c);
          }
        }
      }
    }
  }

  /** `ordered`: the date keys sorted by `NumericCompare`. */
  function OrderedDates(data: seq<SchoolRecord>): seq<string> {
    SortBy(FirstSeen(Tags(data)), NumericCompare)
  }

  /** The date keys of the tagged table are the exam dates of the table. */
  lemma FirstSeenOfData(data: seq<SchoolRecord>, d: string)
    ensures d in FirstSeen(Tags(data)) <==> exists r :: r in data && r.examDate == d
  {
    var tags := Tags(data);
    GroupedByDate(tags);
    if d in FirstSeen(tags) {
      var x := OfDate(tags, d)[0];
      assert x in tags;
      var i :| 0 <= i < |tags| && tags[i] == x;
      assert data[i] in data && data[i].examDate == d;
    }
    if r :| r in data && r.examDate == d {
      var i :| 0 <= i < |data| && data[i] == r;
      assert tags[i] in tags;
      OfDateHas(tags, i, d);
    }
  }

  /**
   * With "M/D" exam dates, `ordered` lists every date of the table exactly
   * once, month by month and day by day.
   */
  lemma OrderedDatesSorted(data: seq<SchoolRecord>)
    requires forall r :: r in data ==> MonthDayKey(r.examDate).Some?
    ensures SortedBy(OrderedDates(data), NumericCompare)
    ensures forall d :: d in OrderedDates(data) <==> exists r :: r in data && r.examDate == d
    ensures multiset(OrderedDates(data)) == multiset(FirstSeen(Tags(data)))
  {
    var keys := FirstSeen(Tags(data));
    forall d | d in keys ensures MonthDayKey(d).Some? {
      FirstSeenOfData(data, d);
    }
    NumericCompareConsistent(keys);
    SortBySorted(keys, NumericCompare);
    forall d ensures d in OrderedDates(data) <==> exists r :: r in data && r.examDate == d {
      assert d in OrderedDates(data) <==> d in multiset(keys);
      FirstSeenOfData(data, d);
    }
  }

  /**
   * `groupByDate(data)`: one pass that tags each record with its id and
   * pushes it onto its date's group, then sorts the date keys.
   */
  method GroupByDate(data: seq<SchoolRecord>) returns (grouped: map<string, seq<SchoolRecord>>, ordered: seq<string>)
    ensures grouped == Grouped(Tags(data))
    ensures ordered == OrderedDates(data)
  {
    grouped := map[];
    var keys: seq<string> := [];
    ghost var tags := Tags(data);
    for i := 0 to |data|
      invariant grouped == Grouped(tags[..i])
      invariant keys == FirstSeen(tags[..i])
    {
      var r := data[i];
      var id := r.examDate + "__" + r.schoolName + "__" + r.examName + "__" + NatToString(i);
      var t := r.(id := Some(id));
      assert t == tags[i];
      assert tags[..i + 1] == tags[..i] + [t];
      GroupStep(tags[..i], t, grouped, keys);
      if r.examDate !in grouped {
        grouped := grouped[r.examDate := []];
        keys := keys + [r.examDate];
      }
      grouped := grouped[r.examDate := grouped[r.examDate] + [t]];
    }
    assert tags[..|data|] == tags;
    ordered := SortBy(keys, NumericCompare);
  }

  /** The mobile "will not apply" record for date `d`: named '志願しない', id `NO_APPLY_${d}`. */
  function NoApplyRecord(d: string): (r: SchoolRecord)
    ensures r.schoolName == NoApplyJa && r.examDate == d && r.id == Some("NO_APPLY_" + d)
  {
    Placeholder(NoApplyJa, d, Some("NO_APPLY_" + d))
  }

  /** The migration effect's write rule: the migrated map replaces the stored one only when the key count differs. */
  function EffectResult(completions: map<string, CompletionStatus>, migrated: map<string, CompletionStatus>): map<string, CompletionStatus> {
    if |migrated.Keys| != |completions.Keys| then migrated else completions
  }

  /**
   * The effect misses a pure rename: a tick stored under the legacy key of
   * the only choice migrates to a one-entry map, the count stays 1, nothing
   * is written, and the status read under the current key stays blank.
   */
  lemma EffectMissesRename(r: SchoolRecord, st: CompletionStatus, migrated: map<string, CompletionStatus>)
    requires IsMigration(map[LegacyKey(r) := st], map[r.examDate := r], migrated)
    ensures migrated == map[SchoolKey(r) := st]
    ensures EffectResult(map[LegacyKey(r) := st], migrated) == map[LegacyKey(r) := st]
    ensures StatusOf(EffectResult(map[LegacyKey(r) := st], migrated), SchoolKey(r)) == Blank
  {
    var c := map[LegacyKey(r) := st];
    var sel := map[r.examDate := r];
    SchoolKeyExtendsLegacy(r);
    assert SchoolKey(r) != LegacyKey(r) by {
      assert |SchoolKey(r)| > |LegacyKey(r)|;
    }
    assert Covered(sel, migrated, r.examDate);
    forall k | k in migrated ensures k == SchoolKey(r) && migrated[k] == st {
      assert Witnessed(c, sel, migrated, k);
      var d :| WonBy(c, sel, migrated, k, d);
    }
    assert migrated.Keys == {SchoolKey(r)};
  }

  class App {
    var phase: Phase
    var grouped: map<string, seq<SchoolRecord>>
    var dates: seq<string>
    var index: int
    var selections: map<string, SchoolRecord>
    var completions: map<string, CompletionStatus>
    var userDev: int
    var modalRec: Option<SchoolRecord>
    var modalOpen: bool

    /** The cursor stays on a date, or at 0 while there are none. */
    ghost predicate Valid()
      reads this
    {
      0 <= index && (index < |dates| || index == 0)
    }

    /** The first render: nothing grouped or chosen yet, the start screen, the default deviation 60. */
    constructor ()
      ensures Valid()
      ensures phase == Start && grouped == map[] && dates == [] && index == 0
      ensures selections == map[] && completions == map[] && userDev == WebStorage.DefaultUserDeviation
      ensures modalRec.None? && !modalOpen
    {
      phase := Start;
      grouped := map[];
      dates := [];
      index := 0;
      selections := map[];
      completions := map[];
      userDev := WebStorage.DefaultUserDeviation;
      modalRec := None;
      modalOpen := false;
    }

    /**
     * The mount effect that groups the bundled table; it runs once, while the
     * cursor is still at 0, and stores what `GroupByDate` returns.
     */
    method LoadTable(data: seq<SchoolRecord>)
      requires Valid() && index == 0
      modifies this
      ensures Valid()
      ensures grouped == Grouped(Tags(data)) && dates == OrderedDates(data)
      ensures phase == old(phase) && index == old(index) && selections == old(selections) && completions == old(completions)
      ensures userDev == old(userDev) && modalRec == old(modalRec) && modalOpen == old(modalOpen)
    {
      grouped, dates := Grouped(Tags(data)), OrderedDates(data);
    }

    /** The mount effect that loads the saved choices, ticks and deviation; saved choices sit under their dates. */
    method LoadSaved(storedSelections: map<string, SchoolRecord>, storedCompletions: map<string, CompletionStatus>,
                     storedDeviation: Option<string>)
      requires Valid() && KeyedByDate(storedSelections)
      modifies this
      ensures Valid() && KeyedByDate(selections)
      ensures selections == storedSelections && completions == storedCompletions
      ensures userDev == WebStorage.LoadUserDeviation(storedDeviation)
      ensures phase == old(phase) && grouped == old(grouped) && dates == old(dates) && index == old(index)
      ensures modalRec == old(modalRec) && modalOpen == old(modalOpen)
    {
      selections := storedSelections;
      completions := storedCompletions;
      userDev := WebStorage.LoadUserDeviation(storedDeviation);
    }

    /** `dates[index]`, absent when out of range or empty. */
    function CurrentDate(): (d: Option<string>)
      reads this
      ensures d.Some? ==> 0 <= index < |dates| && d.value == dates[index] && d.value != ""
      ensures d.None? ==> !(0 <= index < |dates|) || dates[index] == ""
    {
      if 0 <= index < |dates| && dates[index] != "" then Some(dates[index]) else None
    }

    /** The start screen: reloads the deviation and opens the selection phase. */
    method BeginSelection(storedDeviation: Option<string>)
      modifies this
      ensures phase == Select && userDev == WebStorage.LoadUserDeviation(storedDeviation)
      ensures grouped == old(grouped) && dates == old(dates) && index == old(index)
      ensures selections == old(selections) && completions == old(completions)
      ensures modalRec == old(modalRec) && modalOpen == old(modalOpen)
    {
      userDev := WebStorage.LoadUserDeviation(storedDeviation);
      phase := Select;
    }

    /** `openConfirm(r)`. */
    method OpenConfirm(r: SchoolRecord)
      modifies this
      ensures modalRec == Some(r) && modalOpen
      ensures phase == old(phase) && grouped == old(grouped) && dates == old(dates) && index == old(index)
      ensures selections == old(selections) && completions == old(completions) && userDev == old(userDev)
    {
      modalRec := Some(r);
      modalOpen := true;
    }

    /** The "will not apply" button: offers `NoApplyRecord` of the current date, if there is one. */
    method SelectNoApply()
      modifies this
      ensures CurrentDate().Some? ==> modalRec == Some(NoApplyRecord(CurrentDate().value)) && modalOpen
      ensures CurrentDate().None? ==> modalRec == old(modalRec) && modalOpen == old(modalOpen)
      ensures phase == old(phase) && grouped == old(grouped) && dates == old(dates) && index == old(index)
      ensures selections == old(selections) && completions == old(completions) && userDev == old(userDev)
    {
      var d := CurrentDate();
      if d.Some? {
        modalRec := Some(NoApplyRecord(d.value));
        modalOpen := true;
      }
    }

    /** `cancel()`. */
    method Cancel()
      modifies this
      ensures modalRec.None? && !modalOpen
      ensures phase == old(phase) && grouped == old(grouped) && dates == old(dates) && index == old(index)
      ensures selections == old(selections) && completions == old(completions) && userDev == old(userDev)
    {
      modalOpen := false;
      modalRec := None;
    }

    /**
     * `confirm()`: stores the pending record under its date, migrates the
     * completions against the new choices, then advances like the web page.
     */
    method Confirm()
      requires Valid() && KeyedByDate(selections)
      modifies this
      ensures Valid() && KeyedByDate(selections)
      ensures grouped == old(grouped) && dates == old(dates) && userDev == old(userDev)
      ensures old(modalRec).None? ==>
        && selections == old(selections) && completions == old(completions) && phase == old(phase)
        && index == old(index) && modalRec == old(modalRec) && modalOpen == old(modalOpen)
      ensures old(modalRec).Some? ==>
        var rec := old(modalRec).value;
        var i := IndexOf(dates, rec.examDate);
        && selections == old(selections)[rec.examDate := rec]
        && IsMigration(old(completions), selections, completions)
        && modalRec.None? && !modalOpen
        && index == (if 0 <= i < |dates| - 1 then i + 1 else old(index))
        && phase == (if i == |dates| - 1 && AllChosen(dates, selections) then Summary else old(phase))
    {
      if modalRec.None? {
        return;
      }
      var rec := modalRec.value;
      var date := rec.examDate;
      var next := selections[date := rec];
      KeyedByDateStore(selections, rec);
      var migrated := MigrateCompletionKeys(completions, next);
      var idx := IndexOf(dates, date);
      var nextIndex, nextPhase := index, phase;
      if idx >= 0 && idx < |dates| - 1 {
        nextIndex := idx + 1;
      } else if idx == |dates| - 1 && AllChosen(dates, next) {
        nextPhase := Summary;
      }
      selections, completions, index, phase := next, migrated, nextIndex, nextPhase;
      modalOpen, modalRec := false, None;
    }

    /** `allSelected`. */
    function AllSelected(): (b: bool)
      reads this
      ensures b <==> |dates| > 0 && forall d :: d in dates ==> d in selections
    {
      |dates| > 0 && AllChosen(dates, selections)
    }

    /** `finish()`: the summary opens only when every date has a choice. */
    method Finish()
      modifies this
      ensures phase == if old(AllSelected()) then Summary else old(phase)
      ensures grouped == old(grouped) && dates == old(dates) && index == old(index) && userDev == old(userDev)
      ensures selections == old(selections) && completions == old(completions)
      ensures modalRec == old(modalRec) && modalOpen == old(modalOpen)
    {
      if AllSelected() {
        phase := Summary;
      }
    }

    /** `toggleCompletion(key, field)`. */
    method ToggleCompletion(key: string, f: Milestone)
      modifies this
      ensures completions == Records.ToggleCompletion(old(completions), key, f)
      ensures phase == old(phase) && grouped == old(grouped) && dates == old(dates) && index == old(index)
      ensures selections == old(selections) && userDev == old(userDev)
      ensures modalRec == old(modalRec) && modalOpen == old(modalOpen)
    {
      completions := Records.ToggleCompletion(completions, key, f);
    }

    /** `revisit(date)`: back to choosing at `date`, only for a known date. */
    method Revisit(date: string)
      requires Valid()
      modifies this
      ensures Valid()
      ensures date in dates ==> index == IndexOf(dates, date) && dates[index] == date && phase == Select
      ensures date !in dates ==> index == old(index) && phase == old(phase)
      ensures grouped == old(grouped) && dates == old(dates) && selections == old(selections) && completions == old(completions)
      ensures userDev == old(userDev) && modalRec == old(modalRec) && modalOpen == old(modalOpen)
    {
      var idx := IndexOf(dates, date);
      if idx >= 0 {
        index := idx;
        phase := Select;
      }
    }

    /** `resetAll()`: clears every choice and tick and returns to the start, without asking. */
    method ResetAll()
      modifies this
      ensures Valid()
      ensures phase == Start && index == 0 && selections == map[] && completions == map[]
      ensures grouped == old(grouped) && dates == old(dates) && userDev == old(userDev)
      ensures modalRec == old(modalRec) && modalOpen == old(modalOpen)
    {
      selections := map[];
      completions := map[];
      phase := Start;
      index := 0;
    }

    /**
     * `finishAllNoApply()`: fills every open date with `NoApplyRecord`, keeps
     * existing choices, migrates the completions and opens the summary.
     */
    method FinishAllNoApply()
      requires Valid() && KeyedByDate(selections)
      modifies this
      ensures Valid() && KeyedByDate(selections)
      ensures selections == FillOpenDates(old(selections), dates, NoApplyRecord)
      ensures IsMigration(old(completions), selections, completions)
      ensures phase == Summary
      ensures |dates| > 0 ==> AllSelected()
      ensures grouped == old(grouped) && dates == old(dates) && index == old(index) && userDev == old(userDev)
      ensures modalRec == old(modalRec) && modalOpen == old(modalOpen)
    {
      var next := selections;
      for i := 0 to |dates|
        invariant next == FillOpenDates(selections, dates[..i], NoApplyRecord)
      {
        var d := dates[i];
        assert dates[..i + 1][..i] == dates[..i];
        if d !in next {
          next := next[d := NoApplyRecord(d)];
        }
      }
      assert dates[..|dates|] == dates;
      FillOpenDatesKeyedByDate(selections, dates, NoApplyRecord);
      FillOpenDatesChoosesAll(selections, dates, NoApplyRecord);
      selections := next;
      var migrated := MigrateCompletionKeys(completions, next);
      completions := migrated;
      phase := Summary;
    }

    /**
     * The migration effect: skipped while nothing is grouped; otherwise the
     * migrated map is written only when its key count differs (`EffectResult`).
     */
    method MigrationEffect() returns (migrated: map<string, CompletionStatus>)
      modifies this
      ensures grouped == map[] ==> completions == old(completions)
      ensures grouped != map[] ==> IsMigration(old(completions), selections, migrated) && completions == EffectResult(old(completions), migrated)
      ensures phase == old(phase) && grouped == old(grouped) && dates == old(dates) && index == old(index)
      ensures selections == old(selections) && userDev == old(userDev)
      ensures modalRec == old(modalRec) && modalOpen == old(modalOpen)
    {
      migrated := map[];
      if |grouped.Keys| == 0 {
        assert grouped == map[];
        return;
      }
      migrated := MigrateCompletionKeys(completions, selections);
      if |migrated.Keys| != |completions.Keys| {
        completions := migrated;
      }
    }
  }
}

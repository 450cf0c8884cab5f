/**
 * The school-table loader of the web front end (src/utils/csv.ts): mapping a
 * row of columns or a JSON object to a record, cleaning stray U+FFFD and
 * U+FEFF characters, back-filling missing areas from other rows of the same
 * school, and grouping the records by exam date with the dates in
 * month/day order.
 */
module Csv {
  import opened Wrappers
  import opened JsText
  import opened Records
  import opened Sheet
  import opened Grouping
  import ExamDates

  /** `cols[i] || ''`: a missing column reads as the empty string. */
  function Column(cols: seq<string>, i: nat): (s: string)
    ensures i < |cols| ==> s == cols[i]
    ensures i >= |cols| ==> s == ""
  {
    if i < |cols| then cols[i] else ""
  }

  /** `raw ? parseInt(raw, 10) || null : null`: empty, unparsable and zero all read as "no deviation". */
  function ParseDeviationText(raw: string): (d: Option<int>)
    ensures d != Some(0)
    ensures d.Some? <==> raw != "" && ParseInt(raw).Some? && ParseInt(raw) != Some(0)
    ensures d.Some? ==> d == ParseInt(raw)
  {
    if raw == "" then None
    else
      match ParseInt(raw)
      case None => None
      case Some(v) => if v == 0 then None else Some(v)
  }

  /**
   * The deviation of a JSON object or a spreadsheet row: a number is kept as
   * it is, zero included; text goes through `parseInt(…) || null`.
   */
  function CellDeviation(c: Cell): (d: Option<int>)
    ensures c.Number? ==> d == Some(c.value)
    ensures c.Missing? ==> d.None?
    ensures c.Text? ==> d == ParseDeviationText(c.text)
  {
    match c
    case Missing => None
    case Number(n) => Some(n)
    case Text(t) => ParseDeviationText(t)
  }

  /**
   * `mapColumnsFlexible(cols)`: with 11 or more columns, column 3 is the
   * category; with fewer there is no category column and the category is ''.
   */
  function MapColumnsFlexible(cols: seq<string>): (r: SchoolRecord)
    ensures r.deviation == ParseDeviationText(Column(cols, 2))
    ensures r.deviation != Some(0)
    ensures |cols| < 11 ==> r.category == ""
    ensures r.id.None?
  {
    var wide := |cols| >= 11;
    var shift := if wide then 1 else 0;
    SchoolRecord(
      Trim(Column(cols, 0)), Trim(Column(cols, 1)), ParseDeviationText(Column(cols, 2)),
      if wide then Trim(Column(cols, 3)) else "",
      Trim(Column(cols, 3 + shift)), Trim(Column(cols, 4 + shift)), Trim(Column(cols, 5 + shift)),
      Trim(Column(cols, 6 + shift)), Trim(Column(cols, 7 + shift)), Trim(Column(cols, 8 + shift)),
      Trim(Column(cols, 9 + shift)), None)
  }

  /** Inserting a category column into a ten-column row shifts every later field by one. */
  lemma CategoryColumnShifts(cols: seq<string>, category: string)
    requires |cols| == 10
    ensures MapColumnsFlexible(cols[..3] + [category] + cols[3..]) == MapColumnsFlexible(cols).(category := Trim(category))
  {
    var wide := cols[..3] + [category] + cols[3..];
    assert |wide| == 11;
    assert Column(wide, 0) == Column(cols, 0) && Column(wide, 1) == Column(cols, 1) && Column(wide, 2) == Column(cols, 2);
    assert Column(wide, 3) == category;
    assert Column(wide, 4) == Column(cols, 3) && Column(wide, 5) == Column(cols, 4) && Column(wide, 6) == Column(cols, 5);
    assert Column(wide, 7) == Column(cols, 6) && Column(wide, 8) == Column(cols, 7) && Column(wide, 9) == Column(cols, 8);
    assert Column(wide, 10) == Column(cols, 9);
  }

  /** Every text field of a mapped row is trimmed. */
  lemma MapColumnsTrimmed(cols: seq<string>)
    ensures var r := MapColumnsFlexible(cols);
      Trim(r.schoolName) == r.schoolName && Trim(r.examDate) == r.examDate && Trim(r.category) == r.category
  {
    TrimIdempotent(Column(cols, 0));
    TrimIdempotent(Column(cols, if |cols| >= 11 then 7 else 6));
    TrimIdempotent(Column(cols, 3));
  }

  /** A string the character `c` does not occur in still lacks it after trimming. */
  lemma TrimKeepsAbsent(s: string, c: char)
    requires c !in s
    ensures c !in Trim(s)
  {
    var i, j :| 0 <= i <= j <= |s| && Trim(s) == s[i..j];
  }

  /** Every U+FFFD (replacement character) and U+FEFF (byte-order mark) removed. */
  function StripStray(s: string): (t: string)
    ensures '�' !in t && '﻿' !in t
    ensures '�' !in s && '﻿' !in s ==> t == s
  {
    var t := RemoveAll(RemoveAll(s, '�'), '﻿');
    assert '�' !in t by {
      assert multiset(t)['�'] == multiset(RemoveAll(s, '�'))['�'];
    }
    t
  }

  /** `cleanField(s)`: every U+FFFD and U+FEFF removed, then trimmed. */
  function CleanField(s: string): (r: string)
    ensures '�' !in r && '﻿' !in r
    ensures Trim(r) == r
    ensures '�' !in s && '﻿' !in s ==> r == Trim(s)
  {
    var t := StripStray(s);
    TrimKeepsAbsent(t, '�');
    TrimKeepsAbsent(t, '﻿');
    TrimIdempotent(t);
    Trim(t)
  }

  /** Cleaning a clean field changes nothing. */
  lemma CleanFieldIdempotent(s: string)
    ensures CleanField(CleanField(s)) == CleanField(s)
  {
  }

  /** A field without the two stray characters and without surrounding white space is already clean. */
  lemma CleanFieldOfClean(s: string)
    requires '�' !in s && '﻿' !in s && Trim(s) == s
    ensures CleanField(s) == s
  {
  }

  /** Stripping both stray characters works piece by piece. */
  lemma StripAppend(a: string, b: string)
    ensures StripStray(a + b) == StripStray(a) + StripStray(b)
  {
    RemoveAllAppend(a, b, '�');
    RemoveAllAppend(RemoveAll(a, '�'), RemoveAll(b, '�'), '﻿');
  }

  /** A stray U+FFFD or U+FEFF anywhere in a field makes no difference to the cleaned field. */
  lemma CleanFieldDropsStray(a: string, b: string, c: char)
    requires c == '�' || c == '﻿'
    ensures CleanField(a + [c] + b) == CleanField(a + b)
  {
    StripAppend(a + [c], b);
    StripAppend(a, [c]);
    StripAppend(a, b);
    assert StripStray([c]) == [];
    assert StripStray(a + [c] + b) == StripStray(a + b);
  }

  /** `cleanRecord(r)`: `cleanField` on the ten text fields; the deviation (and id) are kept. */
  function CleanRecord(r: SchoolRecord): (c: SchoolRecord)
    ensures c.deviation == r.deviation && c.id == r.id
    ensures c.schoolName == CleanField(r.schoolName) && c.area == CleanField(r.area) && c.category == CleanField(r.category)
    ensures c.examName == CleanField(r.examName) && c.applyStart == CleanField(r.applyStart) && c.applyEnd == CleanField(r.applyEnd)
    ensures c.examDate == CleanField(r.examDate) && c.resultDate == CleanField(r.resultDate)
    ensures c.annual == CleanField(r.annual) && c.refund == CleanField(r.refund)
  {
    r.(schoolName := CleanField(r.schoolName), area := CleanField(r.area), category := CleanField(r.category),
       examName := CleanField(r.examName), applyStart := CleanField(r.applyStart), applyEnd := CleanField(r.applyEnd),
       examDate := CleanField(r.examDate), resultDate := CleanField(r.resultDate), annual := CleanField(r.annual),
       refund := CleanField(r.refund))
  }

  lemma CleanRecordIdempotent(r: SchoolRecord)
    ensures CleanRecord(CleanRecord(r)) == CleanRecord(r)
  {
    CleanFieldIdempotent(r.schoolName);
    CleanFieldIdempotent(r.area);
    CleanFieldIdempotent(r.category);
    CleanFieldIdempotent(r.examName);
    CleanFieldIdempotent(r.applyStart);
    CleanFieldIdempotent(r.applyEnd);
    CleanFieldIdempotent(r.examDate);
    CleanFieldIdempotent(r.resultDate);
    CleanFieldIdempotent(r.annual);
    CleanFieldIdempotent(r.refund);
  }

  /** The area `fillMissingAreas` remembers per school name: the last non-empty one, scanning in order. */
  function AreaMap(rs: seq<SchoolRecord>): (m: map<string, string>)
    ensures forall n :: n in m ==> n != "" && m[n] != ""
  {
    if rs == [] then map[]
    else
      var m := AreaMap(rs[..|rs| - 1]);
      var r := rs[|rs| - 1];
      if r.schoolName != "" && r.area != "" then m[r.schoolName := r.area] else m
  }

  /** Record `j` names school `n` and gives it an area. */
  predicate Donor(rs: seq<SchoolRecord>, j: int, n: string) {
    0 <= j < |rs| && n != "" && rs[j].schoolName == n && rs[j].area != ""
  }

  /** Record `j` is the last to name `n` with an area. */
  predicate LastDonor(rs: seq<SchoolRecord>, j: int, n: string) {
    Donor(rs, j, n) && forall k :: j < k < |rs| ==> !Donor(rs, k, n)
  }

  /** The area remembered for `n` is that of the last record naming `n` with an area; without one, nothing is remembered. */
  lemma {:induction false} AreaMapLastDonor(rs: seq<SchoolRecord>, n: string)
    ensures n in AreaMap(rs) ==> exists j :: LastDonor(rs, j, n) && AreaMap(rs)[n] == rs[j].area
    ensures n !in AreaMap(rs) ==> forall j :: !Donor(rs, j, n)
  {
    if rs != [] {
      var init := rs[..|rs| - 1];
      AreaMapLastDonor(init, n);
      var last := |rs| - 1;
      assert forall j :: 0 <= j < last ==> (Donor(rs, j, n) <==> Donor(init, j, n));
      if Donor(rs, last, n) {
        assert AreaMap(rs)[n] == rs[last].area;
      } else if n in AreaMap(init) {
        var j :| LastDonor(init, j, n) && AreaMap(init)[n] == init[j].area;
        assert LastDonor(rs, j, n);
      }
    }
  }

  /** What the second loop does to one record. */
  function FillArea(r: SchoolRecord, m: map<string, string>): (f: SchoolRecord)
    ensures f == r || (r.area == "" && f == r.(area := f.area) && f.area != "")
  {
    if r.schoolName != "" && r.area == "" && r.schoolName in m && m[r.schoolName] != ""
    then r.(area := m[r.schoolName])
    else r
  }

  /** The records after `fillMissingAreas`. */
  function FilledAreas(rs: seq<SchoolRecord>): (out: seq<SchoolRecord>)
    ensures |out| == |rs|
  {
    var m := AreaMap(rs);
    seq(|rs|, i requires 0 <= i < |rs| => FillArea(rs[i], m))
  }

  /**
   * `fillMissingAreas(records)`, in place: a record with a school name and an
   * empty area takes the area of the last record of the same school that has
   * one; every other record is left as it was.
   */
  method FillMissingAreas(records: array<SchoolRecord>)
    modifies records
    ensures records[..] == FilledAreas(old(records[..]))
  {
    var areaMap: map<string, string> := map[];
    for i := 0 to records.Length
      invariant areaMap == AreaMap(records[..i])
    {
      var r := records[i];
      assert records[..i + 1][..i] == records[..i];
      if r.schoolName != "" && r.area != "" {
        areaMap := areaMap[r.schoolName := r.area];
      }
    }
    assert records[..records.Length] == records[..];
    ghost var orig := records[..];
    for i := 0 to records.Length
      invariant forall k :: 0 <= k < i ==> records[k] == FillArea(orig[k], areaMap)
      invariant forall k :: i <= k < records.Length ==> records[k] == orig[k]
    {
      var r := records[i];
      if r.schoolName != "" && r.area == "" && r.schoolName in areaMap && areaMap[r.schoolName] != "" {
        records[i] := r.(area := areaMap[r.schoolName]);
      }
    }
  }

  /** The record list copied into an array, back-filled in place, and read out again. */
  method BackFill(rs: seq<SchoolRecord>) returns (out: seq<SchoolRecord>)
    ensures out == FilledAreas(rs)
  {
    var buffer := new SchoolRecord[|rs|](i requires 0 <= i < |rs| => rs[i]);
    assert buffer[..] == rs;
    FillMissingAreas(buffer);
    out := buffer[..];
  }

  /** Record by record: areas already present stay, an empty one takes the last area given for the same school, if any. */
  lemma FilledAreasSpec(rs: seq<SchoolRecord>, i: int)
    requires 0 <= i < |rs|
    ensures rs[i].area != "" ==> FilledAreas(rs)[i] == rs[i]
    ensures rs[i].area == "" && (forall j :: !Donor(rs, j, rs[i].schoolName)) ==> FilledAreas(rs)[i] == rs[i]
    ensures rs[i].area == "" && Donor(rs, i, rs[i].schoolName) ==> false
    ensures forall j :: (LastDonor(rs, j, rs[i].schoolName) && rs[i].area == "") ==> FilledAreas(rs)[i] == rs[i].(area := rs[j].area)
  {
    var n := rs[i].schoolName;
    AreaMapLastDonor(rs, n);
    forall j | LastDonor(rs, j, n) && rs[i].area == ""
      ensures FilledAreas(rs)[i] == rs[i].(area := rs[j].area)
    {
      var j' :| LastDonor(rs, j', n) && AreaMap(rs)[n] == rs[j'].area;
      assert j == j';
    }
  }

  /** Back-filling touches only areas: records with an exam date and no category keep both. */
  lemma FilledKeepsDatedUncategorised(rs: seq<SchoolRecord>)
    requires forall r :: r in rs ==> r.category == ""
    ensures forall i :: 0 <= i < |rs| ==> FilledAreas(rs)[i].examDate == rs[i].examDate && FilledAreas(rs)[i].category == ""
  {
    forall i | 0 <= i < |rs| ensures FilledAreas(rs)[i].examDate == rs[i].examDate && FilledAreas(rs)[i].category == "" {
      assert rs[i] in rs;
    }
  }

  /** Back-filling twice is back-filling once. */
  lemma FilledAreasIdempotent(rs: seq<SchoolRecord>)
    ensures FilledAreas(FilledAreas(rs)) == FilledAreas(rs)
  {
    var out := FilledAreas(rs);
    forall i | 0 <= i < |out| ensures FillArea(out[i], AreaMap(out)) == out[i] {
      var n := out[i].schoolName;
      if n != "" && out[i].area == "" {
        assert n !in AreaMap(rs);
        AreaMapLastDonor(rs, n);
        forall j | 0 <= j < |out| ensures !Donor(out, j, n) {
          assert !Donor(rs, j, n);
        }
        AreaMapLastDonor(out, n);
      }
    }
  }

  /** `rs.filter(r => r.examDate)`. */
  function WithExamDate(rs: seq<SchoolRecord>): (out: seq<SchoolRecord>)
    ensures forall i :: 0 <= i < |out| ==> out[i] in rs && out[i].examDate != ""
    ensures forall i :: 0 <= i < |rs| && rs[i].examDate != "" ==> rs[i] in out
    ensures |out| <= |rs|
    ensures |rs| == 1 ==> out == if rs[0].examDate != "" then rs else []
  {
    if rs == [] then []
    else WithExamDate(rs[..|rs| - 1]) + (if rs[|rs| - 1].examDate != "" then [rs[|rs| - 1]] else [])
  }

  /** Filtering a list with one more record at the end adds that record exactly when it has a date. */
  lemma WithExamDateSnoc(rs: seq<SchoolRecord>, x: SchoolRecord)
    ensures WithExamDate(rs + [x]) == WithExamDate(rs) + (if x.examDate != "" then [x] else [])
  {
    assert (rs + [x])[..|rs|] == rs;
  }

  /** The filter works piece by piece, so the kept records keep their order. */
  lemma {:induction false} WithExamDateAppend(a: seq<SchoolRecord>, b: seq<SchoolRecord>)
    ensures WithExamDate(a + b) == WithExamDate(a) + WithExamDate(b)
  {
    if b == [] {
      assert a + b == a;
    } else {
      var front, last := b[..|b| - 1], b[|b| - 1];
      var kept: seq<SchoolRecord> := if last.examDate != "" then [last] else [];
      assert b == front + [last];
      assert a + b == (a + front) + [last];
      WithExamDateSnoc(a + front, last);
      WithExamDateSnoc(front, last);
      WithExamDateAppend(a, front);
      assert (WithExamDate(a) + WithExamDate(front)) + kept == WithExamDate(a) + (WithExamDate(front) + kept);
    }
  }

  /** One object of the bundled JSON table: its text fields (absent ones missing from the map) and its deviation. */
  datatype JsonRow = JsonRow(fields: map<string, string>, deviation: Cell)

  /** `j[name] || ''`. */
  function JsonText(j: JsonRow, name: string): (s: string)
    ensures name !in j.fields ==> s == ""
    ensures name in j.fields ==> s == j.fields[name]
  {
    if name in j.fields then j.fields[name] else ""
  }

  /** The record a JSON object maps to, before clean-up. */
  function FromJson(j: JsonRow): (r: SchoolRecord)
    ensures r.deviation == CellDeviation(j.deviation) && r.examDate == JsonText(j, "examDate")
  {
    SchoolRecord(JsonText(j, "schoolName"), JsonText(j, "area"), CellDeviation(j.deviation), JsonText(j, "category"),
      JsonText(j, "examName"), JsonText(j, "applyStart"), JsonText(j, "applyEnd"), JsonText(j, "examDate"),
      JsonText(j, "resultDate"), JsonText(j, "annual"), JsonText(j, "refund"), None)
  }

  function MapRecords(rs: seq<SchoolRecord>, f: SchoolRecord -> SchoolRecord): (out: seq<SchoolRecord>)
    ensures |out| == |rs| && forall i :: 0 <= i < |rs| ==> out[i] == f(rs[i])
  {
    seq(|rs|, i requires 0 <= i < |rs| => f(rs[i]))
  }

  /**
   * The JSON branch of `loadCsv`: map each object, drop those without an
   * exam date, back-fill areas in place, then clean every record. The date
   * filter runs before clean-up, so a date of white space only survives it.
   */
  method LoadJson(rows: seq<JsonRow>) returns (records: seq<SchoolRecord>)
    ensures records == MapRecords(FilledAreas(WithExamDate(SeqOfRows(rows))), CleanRecord)
  {
    var filled := BackFill(WithExamDate(SeqOfRows(rows)));
    records := MapRecords(filled, CleanRecord);
  }

  /** `json.map(…)`: one record per object, in order. */
  function SeqOfRows(rows: seq<JsonRow>): (rs: seq<SchoolRecord>)
    ensures |rs| == |rows| && forall i :: 0 <= i < |rows| ==> rs[i] == FromJson(rows[i])
  {
    seq(|rows|, i requires 0 <= i < |rows| => FromJson(rows[i]))
  }

  /** A JSON deviation that is a number is kept, zero included; as text, zero means "no deviation". */
  lemma JsonDeviationZero()
    ensures CellDeviation(Number(0)) == Some(0)
    ensures CellDeviation(Text("0")) == None
  {
  }

  /**
   * The grouping half of `loadGrouped`: drop records without an exam date,
   * push each remaining record onto its date's list in order, then sort the
   * dates with `sortExamDates`.
   */
  method LoadGrouped(records: seq<SchoolRecord>) returns (grouped: map<string, seq<SchoolRecord>>, orderedDates: seq<string>)
    ensures grouped == Grouped(WithExamDate(records))
    ensures orderedDates == ExamDates.SortExamDates(FirstSeen(WithExamDate(records)))
  {
    var valid := WithExamDate(records);
    grouped := map[];
    var keys: seq<string> := [];
    for i := 0 to |valid|
      invariant grouped == Grouped(valid[..i])
      invariant keys == FirstSeen(valid[..i])
    {
      var rec := valid[i];
      assert valid[..i + 1] == valid[..i] + [rec];
      GroupStep(valid[..i], rec, grouped, keys);
      if rec.examDate !in grouped {
        grouped := grouped[rec.examDate := []];
        keys := keys + [rec.examDate];
      }
      grouped := grouped[rec.examDate := grouped[rec.examDate] + [rec]];
    }
    assert valid[..|valid|] == valid;
    orderedDates := ExamDates.SortExamDates(keys);
  }

  /**
   * What `loadGrouped` promises: every record with an exam date sits in
   * exactly the group of that date, groups keep input order and hold all
   * those records, no group is keyed by '', and the ordered dates list each
   * group key exactly once.
   */
  lemma LoadGroupedSpec(records: seq<SchoolRecord>)
    ensures var valid := WithExamDate(records);
      && (forall d :: d in Grouped(valid) ==> d != "" && Grouped(valid)[d] == OfDate(valid, d))
      && (forall r :: r in records && r.examDate != "" ==> r.examDate in Grouped(valid) && r in Grouped(valid)[r.examDate])
      && (forall d :: d in FirstSeen(valid) <==> d in Grouped(valid))
      && TotalSize(Grouped(valid), FirstSeen(valid)) == |valid|
      && multiset(ExamDates.SortExamDates(FirstSeen(valid))) == multiset(FirstSeen(valid))
  {
    var valid := WithExamDate(records);
    GroupedByDate(valid);
    GroupedKeepsCount(valid);
    forall d | d in Grouped(valid) ensures d != "" {
      var x := OfDate(valid, d)[0];
      assert x in valid;
    }
    forall r | r in records && r.examDate != "" ensures r.examDate in Grouped(valid) && r in Grouped(valid)[r.examDate] {
      assert r in valid;
      var i :| 0 <= i < |valid| && valid[i] == r;
      OfDateHas(valid, i, r.examDate);
      OfDateContains(valid, i);
    }
  }

  lemma {:induction false} OfDateContains(s: seq<SchoolRecord>, i: int)
    requires 0 <= i < |s|
    ensures s[i] in OfDate(s, s[i].examDate)
  {
    if i < |s| - 1 {
      OfDateContains(s[..|s| - 1], i);
    }
  }

  /** An exam date of white space alone passes the JSON branch's date filter and is cleaned to ''. */
  lemma BlankDateSurvivesJsonFilter(j: JsonRow)
    requires JsonText(j, "examDate") == " "
    ensures WithExamDate([FromJson(j)]) == [FromJson(j)]
    ensures CleanRecord(FromJson(j)).examDate == ""
  {
    assert RemoveAll(RemoveAll(" ", '�'), '﻿') == " ";
    TrimAllWhitespace(" ");
    assert [FromJson(j)][..0] == [];
  }

  /**
   * `mapXlsxRow(cols)`: the ten spreadsheet columns without a category;
   * names and notes through `toStr`, dates through the serial rule.
   */
  function MapXlsxRow(cols: seq<Cell>, utcMonthDay: int -> (nat, nat)): (r: SchoolRecord)
    ensures r.category == "" && r.id.None?
    ensures r.deviation == CellDeviation(CellAt(cols, 2))
    ensures r.examDate == NormalDate(CellAt(cols, 6), utcMonthDay)
  {
    SchoolRecord(CellText(CellAt(cols, 0)), CellText(CellAt(cols, 1)), CellDeviation(CellAt(cols, 2)), "",
      CellText(CellAt(cols, 3)), NormalDate(CellAt(cols, 4), utcMonthDay), NormalDate(CellAt(cols, 5), utcMonthDay),
      NormalDate(CellAt(cols, 6), utcMonthDay), NormalDate(CellAt(cols, 7), utcMonthDay),
      CellText(CellAt(cols, 8)), CellText(CellAt(cols, 9)), None)
  }
}

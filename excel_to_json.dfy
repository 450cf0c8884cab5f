/**
 * The build script that turns the school spreadsheet into the bundled JSON
 * table (scripts/genExcelJson.mjs): row mapping, its own deviation rule,
 * the exam-date filter and the same area back-fill as the web loader.
 */
module ExcelToJson {
  import opened Wrappers
  import opened JsText
  import opened Records
  import opened Sheet
  import Csv

  /** `parseDeviation(v)`: missing or '' is null, a number is kept, text is `parseInt` with NaN as null. */
  function ParseDeviation(c: Cell): (d: Option<int>)
    ensures c.Number? ==> d == Some(c.value)
    ensures c == Missing || c == Text("") ==> d.None?
    ensures c.Text? && c.text != "" ==> d == ParseInt(c.text)
  {
    match c
    case Missing => None
    case Number(n) => Some(n)
    case Text(t) => if t == "" then None else ParseInt(t)
  }

  /**
   * The script and the web loader read deviations alike except for text that
   * parses to zero: the script keeps 0, the loader reads "no deviation".
   */
  lemma DeviationRulesDiffer(c: Cell)
    ensures c.Text? && ParseInt(c.text) == Some(0) ==> ParseDeviation(c) == Some(0) && Csv.CellDeviation(c).None?
    ensures !(c.Text? && ParseInt(c.text) == Some(0)) ==> ParseDeviation(c) == Csv.CellDeviation(c)
  {
    if c.Text? && c.text == "" {
      assert ParseInt(c.text).None?;
    }
  }

  /** "0" is a deviation of 0 here and no deviation in the web loader. */
  lemma ZeroDeviationText()
    ensures ParseDeviation(Text("0")) == Some(0)
    ensures Csv.CellDeviation(Text("0")) == None
  {
    ParseIntOfIntToString(0);
    assert IntToString(0) == "0";
    DeviationRulesDiffer(Text("0"));
  }

  /** One data row of the sheet: the loader's column layout, with this script's deviation rule. */
  function MapRow(cols: seq<Cell>, utcMonthDay: int -> (nat, nat)): (r: SchoolRecord)
    ensures r.category == "" && r.id.None?
    ensures r.deviation == ParseDeviation(CellAt(cols, 2))
  {
    Csv.MapXlsxRow(cols, utcMonthDay).(deviation := ParseDeviation(CellAt(cols, 2)))
  }

  function MapRows(rows: seq<seq<Cell>>, utcMonthDay: int -> (nat, nat)): (rs: seq<SchoolRecord>)
    ensures |rs| == |rows| && forall i :: 0 <= i < |rows| ==> rs[i] == MapRow(rows[i], utcMonthDay)
  {
    seq(|rows|, i requires 0 <= i < |rows| => MapRow(rows[i], utcMonthDay))
  }

  /**
   * The records the script writes: data rows mapped, rows without an exam
   * date dropped, then areas back-filled in place.
   */
  method BuildRecords(rows: seq<seq<Cell>>, utcMonthDay: int -> (nat, nat)) returns (records: seq<SchoolRecord>)
    ensures records == Csv.FilledAreas(Csv.WithExamDate(MapRows(rows, utcMonthDay)))
  {
    records := Csv.BackFill(Csv.WithExamDate(MapRows(rows, utcMonthDay)));
  }

  /** Every written record has an exam date and an empty category. */
  lemma BuiltRecordsShape(rows: seq<seq<Cell>>, utcMonthDay: int -> (nat, nat))
    ensures var out := Csv.FilledAreas(Csv.WithExamDate(MapRows(rows, utcMonthDay)));
      forall i :: 0 <= i < |out| ==> out[i].examDate != "" && out[i].category == ""
  {
    DatedNoCategory(rows, utcMonthDay);
    FilledShape(Csv.WithExamDate(MapRows(rows, utcMonthDay)));
  }

  /** Back-filling dated, uncategorised records leaves them dated and uncategorised. */
  lemma FilledShape(dated: seq<SchoolRecord>)
    requires forall r :: r in dated ==> r.examDate != "" && r.category == ""
    ensures forall i :: 0 <= i < |Csv.FilledAreas(dated)| ==> Csv.FilledAreas(dated)[i].examDate != "" && Csv.FilledAreas(dated)[i].category == ""
  {
    Csv.FilledKeepsDatedUncategorised(dated);
    forall i | 0 <= i < |dated| ensures dated[i].examDate != "" {
      assert dated[i] in dated;
    }
  }

  /** The rows the date filter keeps have an exam date and no category. */
  lemma DatedNoCategory(rows: seq<seq<Cell>>, utcMonthDay: int -> (nat, nat))
    ensures forall r :: r in Csv.WithExamDate(MapRows(rows, utcMonthDay)) ==> r.examDate != "" && r.category == ""
  {
    NoCategory(rows, utcMonthDay);
  }

  lemma NoCategory(rows: seq<seq<Cell>>, utcMonthDay: int -> (nat, nat))
    ensures forall r :: r in MapRows(rows, utcMonthDay) ==> r.category == ""
  {
  }
}

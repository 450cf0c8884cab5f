/**
 * Spreadsheet cells as the Excel readers deliver them (scripts/genExcelJson.mjs
 * and the XLSX branch of src/utils/csv.ts): absent, text, or a number. Date
 * columns arrive as day serials counted from 1899-12-30 UTC; turning a serial
 * into a calendar month and day is JavaScript `Date` arithmetic, so it is a
 * parameter here, and only the "MM/DD" text made from it is modelled.
 */
module Sheet {
  import opened Wrappers
  import opened JsText
  import ExamDates

  /** Fractional numbers are not part of this model: numeric cells hold integers. */
  datatype Cell = Missing | Text(text: string) | Number(value: int)

  /** The cell at `i`, `undefined` past the end of a short row. */
  function CellAt(cols: seq<Cell>, i: nat): (c: Cell)
    ensures i >= |cols| ==> c == Missing
  {
    if i < |cols| then cols[i] else Missing
  }

  /** `str(v)`: '' for a missing cell, otherwise the trimmed `String(v)`. */
  function CellText(c: Cell): string {
    match c
    case Missing => ""
    case Text(t) => Trim(t)
    case Number(n) => IntToString(n)
  }

  /**
   * What `str` yields needs no further trimming; text cells are trimmed and
   * number cells read back with `parseInt` as the same number.
   */
  lemma CellTextRoundTrip(c: Cell)
    ensures Trim(CellText(c)) == CellText(c)
    ensures c.Text? ==> CellText(c) == Trim(c.text)
    ensures c.Number? ==> ParseInt(CellText(c)) == Some(c.value)
  {
    match c
    case Missing =>
    case Text(t) => TrimIdempotent(t);
    case Number(n) => IntNeedsNoTrim(n); ParseIntOfIntToString(n);
  }

  lemma IntNeedsNoTrim(n: int)
    ensures Trim(IntToString(n)) == IntToString(n)
  {
    var s := IntToString(n);
    var digits := if n < 0 then s[1..] else s;
    assert forall k :: 0 <= k < |digits| ==> IsDigit(digits[k]);
    assert !IsJsWhitespace(s[0]) && !IsJsWhitespace(s[|s| - 1]);
  }

  /** `String(v).padStart(2, '0')` for a month or day number. */
  function TwoDigits(v: nat): string {
    PadStart2(NatToString(v))
  }

  /** `m + '/' + d`, both padded to two digits: the text a date serial becomes. */
  function SerialText(month: nat, day: nat): string {
    TwoDigits(month) + "/" + TwoDigits(day)
  }

  lemma {:induction false} TwoDigitsValue(v: nat)
    requires v < 100
    ensures |TwoDigits(v)| == 2 && AllDigits(TwoDigits(v)) && DigitsValue(TwoDigits(v)) == v
  {
    NatToStringValue(v);
    var s := NatToString(v);
    if |s| == 1 {
      var t := "0" + s;
      assert t[..1] == "0";
      assert DigitsValue(t) == DigitsValue("0") * 10 + DigitValue(t[1]);
      assert DigitsValue(s) == DigitsValue([]) * 10 + DigitValue(s[0]);
    }
  }

  /** "MM/DD" reads back as the month and day it was made from. */
  lemma SerialTextParses(month: nat, day: nat)
    requires month < 100 && day < 100
    ensures |SerialText(month, day)| == 5 && SerialText(month, day)[2] == '/'
    ensures ExamDates.ParseMonthDay(SerialText(month, day)) == Some(ExamDates.MonthDay(month, day))
  {
    TwoDigitsValue(month);
    TwoDigitsValue(day);
    assert SerialText(month, day) == TwoDigits(month) + "/" + TwoDigits(day) + "";
    ExamDates.ParseMonthDayOfParts(TwoDigits(month), "/", TwoDigits(day), "");
  }

  /**
   * `normalDate(v)`: '' for a missing or empty cell, "MM/DD" for a day serial
   * (`utcMonthDay` gives its UTC month and day), otherwise the trimmed text.
   * `excelSerialToDate` in src/utils/csv.ts follows the same rule.
   */
  function NormalDate(c: Cell, utcMonthDay: int -> (nat, nat)): (s: string)
    ensures c.Missing? ==> s == ""
    ensures c.Text? ==> s == Trim(c.text)
  {
    match c
    case Missing => ""
    case Text(t) => if t == "" then "" else Trim(t)
    case Number(n) => SerialText(utcMonthDay(n).0, utcMonthDay(n).1)
  }

  /** A day serial becomes a date key that reads back as its UTC month and day. */
  lemma NormalDateOfSerial(n: int, utcMonthDay: int -> (nat, nat))
    requires utcMonthDay(n).0 < 100 && utcMonthDay(n).1 < 100
    ensures NormalDate(Number(n), utcMonthDay) != ""
    ensures ExamDates.ParseMonthDay(NormalDate(Number(n), utcMonthDay)) == Some(ExamDates.MonthDay(utcMonthDay(n).0, utcMonthDay(n).1))
  {
    SerialTextParses(utcMonthDay(n).0, utcMonthDay(n).1);
  }
}

/**
 * Day counting behind the D-day labels: the proleptic Gregorian day number
 * that a JavaScript `Date` built from (year, month - 1, day) stands for, the
 * exam-cycle rule that puts January to March in the following year, and the
 * label text itself. "Today" is a parameter, never read from a clock.
 */
module Calendar {
  import opened Wrappers
  import opened JsText

  predicate IsLeapYear(y: int) {
    y % 4 == 0 && (y % 100 != 0 || y % 400 == 0)
  }

  function DaysInMonth(y: int, m: int): (n: int)
    requires 1 <= m <= 12
    ensures 28 <= n <= 31
  {
    if m == 2 then (if IsLeapYear(y) then 29 else 28)
    else if m == 4 || m == 6 || m == 9 || m == 11 then 30
    else 31
  }

  /** Days from 1 March of year 0 to 1 March of year `z`, counted in 400-year eras. */
  function MarchBase(z: int): int {
    var era, yoe := z / 400, z % 400;
    era * 146097 + yoe * 365 + yoe / 4 - yoe / 100
  }

  /** The day number of a civil date, 1 January 1970 being day 0; `d` may run past the month's end. */
  function DaysFromCivil(y: int, m: int, d: int): int
    requires 1 <= m <= 12
  {
    var shifted := if m <= 2 then y - 1 else y;
    var mp := (m + 9) % 12;
    MarchBase(shifted) + (153 * mp + 2) / 5 + d - 1 - 719468
  }

  lemma Epoch()
    ensures DaysFromCivil(1970, 1, 1) == 0
  {
  }

  lemma YearOfEraStep(z: int)
    requires z % 400 < 399
    ensures (z + 1) / 400 == z / 400 && (z + 1) % 400 == z % 400 + 1
  {
  }

  lemma YearOfEraWrap(z: int)
    requires z % 400 == 399
    ensures (z + 1) / 400 == z / 400 + 1 && (z + 1) % 400 == 0
  {
  }

  /** The Gregorian leap rule repeats every 400 years. */
  lemma LeapByYearOfEra(y: int)
    ensures IsLeapYear(y) <==> IsLeapYear(y % 400)
  {
    var q, r := y / 400, y % 400;
    assert y == 4 * (100 * q) + r;
    assert y % 4 == r % 4;
    assert y == 100 * (4 * q) + r;
    assert y % 100 == r % 100;
  }

  lemma LeapDaysStep(r: int)
    requires 0 <= r < 399
    ensures (r + 1) / 4 - r / 4 == if (r + 1) % 4 == 0 then 1 else 0
    ensures (r + 1) / 100 - r / 100 == if (r + 1) % 100 == 0 then 1 else 0
    ensures (r + 1) % 100 == 0 ==> (r + 1) % 4 == 0
  {
  }

  /** A March-to-February year has 366 days exactly when its February is a leap February. */
  lemma MarchYearLength(y: int)
    ensures MarchBase(y) - MarchBase(y - 1) == if IsLeapYear(y) then 366 else 365
  {
    var z := y - 1;
    LeapByYearOfEra(y);
    if z % 400 < 399 {
      YearOfEraStep(z);
      LeapDaysStep(z % 400);
    } else {
      YearOfEraWrap(z);
    }
  }

  /** Consecutive month starts lie `DaysInMonth` apart, December running into January. */
  lemma MonthLength(y: int, m: int)
    requires 1 <= m <= 12
    ensures m < 12 ==> DaysFromCivil(y, m + 1, 1) - DaysFromCivil(y, m, 1) == DaysInMonth(y, m)
    ensures m == 12 ==> DaysFromCivil(y + 1, 1, 1) - DaysFromCivil(y, 12, 1) == 31
  {
    if m == 2 {
      MarchYearLength(y);
    } else if m <= 7 {
      ShortMonthStep(y, m);
    } else {
      LateMonthStep(y, m);
    }
  }

  lemma ShortMonthStep(y: int, m: int)
    requires 1 <= m <= 7 && m != 2
    ensures DaysFromCivil(y, m + 1, 1) - DaysFromCivil(y, m, 1) == DaysInMonth(y, m)
  {
  }

  lemma LateMonthStep(y: int, m: int)
    requires 8 <= m <= 12
    ensures m < 12 ==> DaysFromCivil(y, m + 1, 1) - DaysFromCivil(y, m, 1) == DaysInMonth(y, m)
    ensures m == 12 ==> DaysFromCivil(y + 1, 1, 1) - DaysFromCivil(y, 12, 1) == 31
  {
  }

  /** Within a month, and across month ends of the same year, later civil dates have larger numbers. */
  lemma {:induction false} LaterInYear(y: int, m1: int, d1: int, m2: int, d2: int)
    requires 1 <= m1 <= 12 && 1 <= m2 <= 12
    requires 1 <= d1 <= DaysInMonth(y, m1) && 1 <= d2 <= DaysInMonth(y, m2)
    requires m1 < m2 || (m1 == m2 && d1 < d2)
    ensures DaysFromCivil(y, m1, d1) < DaysFromCivil(y, m2, d2)
    decreases m2 - m1
  {
    if m1 < m2 {
      MonthLength(y, m1);
      if m1 + 1 < m2 {
        LaterInYear(y, m1 + 1, 1, m2, d2);
      }
    }
  }

  /**
   * ECMAScript MakeDay: the day number of `new Date(year, month0, date)`,
   * where `month0` may leave 0..11 and carry into the year.
   */
  function MakeDay(year: int, month0: int, date: int): int {
    DaysFromCivil(year + month0 / 12, month0 % 12 + 1, 1) + date - 1
  }

  /** For a month in range, MakeDay is the civil day number; a day past the month's end rolls over. */
  lemma MakeDayInRange(year: int, month0: int, date: int)
    requires 0 <= month0 < 12
    ensures MakeDay(year, month0, date) == DaysFromCivil(year, month0 + 1, date)
  {
  }

  /** A two-digit year given to the `Date` constructor means 19xx. */
  function FullYear(y: int): (r: int)
    ensures 0 <= y <= 99 ==> r == 1900 + y
    ensures (y < 0 || y > 99) ==> r == y
  {
    if 0 <= y <= 99 then 1900 + y else y
  }

  /** The local calendar date of "today". */
  datatype Today = Today(year: int, month: int, day: int)

  function DayNumber(t: Today): int {
    MakeDay(t.year, t.month - 1, t.day)
  }

  /** The exam-cycle rule: January to March belong to the next year, every other month to this one. */
  function TargetYear(month: int, baseYear: int): (y: int)
    ensures y == baseYear || y == baseYear + 1
    ensures y == baseYear + 1 <==> 1 <= month <= 3
  {
    if 1 <= month <= 3 then baseYear + 1
    else if month == 12 then baseYear
    else baseYear
  }

  /** Whole days from today to `new Date(TargetYear(month), month - 1, day)`. */
  function DaysUntil(month: int, day: int, today: Today): int {
    MakeDay(FullYear(TargetYear(month, today.year)), month - 1, day) - DayNumber(today)
  }

  /**
   * In the exam season that starts after today's year, a January-to-March date
   * always lies ahead of any date of today's year from April onwards.
   */
  lemma ExamSeasonAhead(month: int, day: int, today: Today)
    requires today.year > 99
    requires 4 <= today.month <= 12 && 1 <= today.day <= DaysInMonth(today.year, today.month)
    requires 1 <= month <= 3 && 1 <= day <= DaysInMonth(today.year + 1, month)
    ensures DaysUntil(month, day, today) > 0
  {
    var y := today.year;
    assert FullYear(TargetYear(month, y)) == y + 1;
    MakeDayInRange(y + 1, month - 1, day);
    MakeDayInRange(y, today.month - 1, today.day);
    BeforeNewYear(y, today.month, today.day);
    FromNewYear(y + 1, month, day);
  }

  /** Every valid date of year `y` comes before 1 January of `y + 1`. */
  lemma BeforeNewYear(y: int, m: int, d: int)
    requires 1 <= m <= 12 && 1 <= d <= DaysInMonth(y, m)
    ensures DaysFromCivil(y, m, d) < DaysFromCivil(y + 1, 1, 1)
  {
    if m < 12 || d < 31 {
      LaterInYear(y, m, d, 12, 31);
    }
    MonthLength(y, 12);
  }

  /** No valid date of year `y` comes before its 1 January. */
  lemma FromNewYear(y: int, m: int, d: int)
    requires 1 <= m <= 12 && 1 <= d <= DaysInMonth(y, m)
    ensures DaysFromCivil(y, 1, 1) <= DaysFromCivil(y, m, d)
  {
    if m > 1 || d > 1 {
      LaterInYear(y, 1, 1, m, d);
    }
  }

  /** A valid date from April to December of today's year counts as today exactly on that day. */
  lemma SameDayIsZero(today: Today)
    requires today.year > 99 && 4 <= today.month <= 12
    ensures DaysUntil(today.month, today.day, today) == 0
  {
  }

  /** "D-day" for 0, "D-n" for n days ahead, "D+n" for n days past. */
  function DdayLabel(n: int): (text: string)
    ensures |text| > 2 && text[0] == 'D'
  {
    if n == 0 then "D-day"
    else if n > 0 then "D-" + NatToString(n)
    else "D+" + NatToString(-n)
  }

  /** Reads a label back into a signed day difference. */
  function LabelDiff(text: string): (r: Option<int>)
    ensures r.Some? ==> |text| > 2 && text[0] == 'D'
  {
    if text == "D-day" then Some(0)
    else if |text| > 2 && text[..2] == "D-" && AllDigits(text[2..]) then Some(DigitsValue(text[2..]))
    else if |text| > 2 && text[..2] == "D+" && AllDigits(text[2..]) then Some(-(DigitsValue(text[2..]) as int))
    else None
  }

  /** The label determines the day difference: reading it back gives `n`, so distinct differences get distinct labels. */
  lemma LabelRoundTrip(n: int)
    ensures LabelDiff(DdayLabel(n)) == Some(n)
  {
    if n != 0 {
      var m: nat := if n > 0 then n else -n;
      NatToStringValue(m);
      var text := DdayLabel(n);
      assert text[2..] == NatToString(m);
      assert text != "D-day" by {
        assert IsDigit(text[2]);
        assert !IsDigit("D-day"[2]);
      }
    }
  }

  lemma LabelInjective(m: int, n: int)
    requires DdayLabel(m) == DdayLabel(n)
    ensures m == n
  {
    LabelRoundTrip(m);
    LabelRoundTrip(n);
  }
}

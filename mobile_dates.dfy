/**
 * The mobile app's date helpers (mobile/src/utils/date.ts): its own Japanese
 * display form, which edits the text rather than parsing it, and the D-day
 * label computed from the first two '/'-separated parts.
 */
module MobileDates {
  import opened Wrappers
  import opened JsText
  import opened Calendar

  /** `md.replace('/', '月') + '日'`. */
  function ToDisplayJP(md: string): string {
    ReplaceFirst(md, '/', "月") + "日"
  }

  /** Only the first '/' becomes '月'; the digits are kept as written, leading zeros included. */
  lemma ToDisplayJPOfParts(a: string, b: string)
    requires '/' !in a
    ensures ToDisplayJP(a + "/" + b) == a + "月" + b + "日"
  {
    var s := a + "/" + b;
    assert s[|a|] == '/';
    assert s[..|a|] == a && s[|a| + 1..] == b;
  }

  /**
   * `calcDday(md)`: '' for an empty string or when the month or the day
   * part is not a number; otherwise the label of the day difference.
   */
  function CalcDday(md: string, today: Today): (r: string)
    ensures md == "" ==> r == ""
    ensures var parts := Split(md, '/');
      r == "" <==> |parts| < 2 || ParseInt(parts[0]).None? || ParseInt(parts[1]).None?
    ensures var parts := Split(md, '/');
      r != "" ==> LabelDiff(r) == Some(DaysUntil(ParseInt(parts[0]).value, ParseInt(parts[1]).value, today))
  {
    if md == "" then ""
    else
      var parts := Split(md, '/');
      var m := ParseInt(parts[0]);
      var d := if |parts| >= 2 then ParseInt(parts[1]) else None;
      if m.None? || d.None? then ""
      else
        LabelRoundTrip(DaysUntil(m.value, d.value, today));
        DdayLabel(DaysUntil(m.value, d.value, today))
  }

  /** For "M/D" with numeric parts, the label of the days until that date. */
  lemma CalcDdayOfParts(a: string, b: string, today: Today)
    requires '/' !in a && '/' !in b
    requires ParseInt(a).Some? && ParseInt(b).Some?
    ensures CalcDday(a + "/" + b, today) == DdayLabel(DaysUntil(ParseInt(a).value, ParseInt(b).value, today))
  {
    FirstTwoParts(a, b, "");
    var s := a + "/" + b;
    assert s[|a|] == '/';
  }

  /** Only the first two '/'-separated parts count: anything after a second '/' is ignored. */
  lemma CalcDdayIgnoresRest(a: string, b: string, rest: string, today: Today)
    requires '/' !in a && '/' !in b
    ensures CalcDday(a + "/" + b + "/" + rest, today) == CalcDday(a + "/" + b, today)
  {
    FirstTwoParts(a, b, rest);
    var s1, s2 := a + "/" + b, a + "/" + b + "/" + rest;
    assert s1[|a|] == '/' && s2[|a|] == '/';
  }

  /** `md.split('/')` of "a/b" and of "a/b/rest" begin with the parts `a` and `b`. */
  lemma FirstTwoParts(a: string, b: string, rest: string)
    requires '/' !in a && '/' !in b
    ensures Split(a + "/" + b, '/') == [a, b]
    ensures |Split(a + "/" + b + "/" + rest, '/')| >= 2
    ensures Split(a + "/" + b + "/" + rest, '/')[..2] == [a, b]
  {
    assert a + "/" + b == a + ['/'] + b;
    SplitAtFirst(a, '/', b);
    SplitWithoutSeparator(b, '/');
    assert a + "/" + b + "/" + rest == a + ['/'] + (b + ['/'] + rest);
    SplitAtFirst(a, '/', b + ['/'] + rest);
    SplitAtFirst(b, '/', rest);
  }

  /** Without a month and a day part there is no label. */
  lemma CalcDdayNeedsTwoParts(md: string, today: Today)
    requires '/' !in md
    ensures CalcDday(md, today) == ""
  {
    SplitWithoutSeparator(md, '/');
  }

  /**
   * On 20 December, "12/25" is five days ahead: "D-5". On 30 December, "1/5"
   * means 5 January of the next year: "D-6".
   */
  lemma DdayExamples()
    ensures DdayLabel(DaysUntil(12, 25, Today(2026, 12, 20))) == "D-5"
    ensures DdayLabel(DaysUntil(1, 5, Today(2026, 12, 30))) == "D-6"
  {
    SameMonthExample();
    NewYearExample();
    assert NatToString(5) == "5" && NatToString(6) == "6";
  }

  lemma SameMonthExample()
    ensures DaysUntil(12, 25, Today(2026, 12, 20)) == 5
  {
    MakeDayInRange(2026, 11, 25);
    MakeDayInRange(2026, 11, 20);
  }

  lemma NewYearExample()
    ensures DaysUntil(1, 5, Today(2026, 12, 30)) == 6
  {
    MakeDayInRange(2027, 0, 5);
    MakeDayInRange(2026, 11, 30);
    MonthLength(2026, 12);
  }
}

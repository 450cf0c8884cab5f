/**
 * Month/day exam dates as the web front end reads them (src/utils/date.js):
 * the first two runs of one or two digits on the same line, the order the
 * date list is shown in, and the Japanese and Korean display forms.
 */
module ExamDates {
  import opened Wrappers
  import opened JsText
  import Sorting

  datatype MonthDay = MonthDay(month: nat, day: nat)

  /** The two captured groups of a regular-expression match. */
  datatype Groups = Groups(first: string, second: string)

  /** No line terminator in `s[i..j]`: a regular-expression `.*` can run across it. */
  ghost predicate NoBreak(s: string, i: nat, j: nat)
    requires i <= j <= |s|
  {
    forall k :: i <= k < j ==> !IsLineTerminator(s[k])
  }

  /**
   * The lazy `.*?` followed by `\d`: the first digit at or after `q` that is
   * reachable without crossing a line terminator.
   */
  function LazyDigit(s: string, q: nat): (r: Option<nat>)
    requires q <= |s|
    ensures r.Some? ==> q <= r.value < |s| && IsDigit(s[r.value]) && NoBreak(s, q, r.value)
    ensures r.Some? ==> forall k :: q <= k < r.value ==> !IsDigit(s[k])
    ensures r.None? ==> forall j :: q <= j < |s| && IsDigit(s[j]) ==> !NoBreak(s, q, j)
    decreases |s| - q
  {
    if q == |s| then None
    else if IsDigit(s[q]) then Some(q)
    else if IsLineTerminator(s[q]) then None
    else LazyDigit(s, q + 1)
  }

  /** The greedy `(\d{1,2})` at a digit position. */
  function DigitGroup(s: string, j: nat): (g: string)
    requires j < |s| && IsDigit(s[j])
    ensures 1 <= |g| <= 2 && j + |g| <= |s| && AllDigits(g) && g == s[j..j + |g|]
    ensures |g| == 2 <==> j + 1 < |s| && IsDigit(s[j + 1])
  {
    if j + 1 < |s| && IsDigit(s[j + 1]) then s[j..j + 2] else s[j..j + 1]
  }

  /** A match of `(\d{1,2}).*?(\d{1,2})` can start at `p`. */
  ghost predicate PairFrom(s: string, p: nat) {
    p < |s| && IsDigit(s[p]) && exists j :: p < j < |s| && IsDigit(s[j]) && NoBreak(s, p + 1, j)
  }

  /**
   * The match attempt at `p`, with backtracking: the first group tries two
   * digits, then one.
   */
  function MatchAt(s: string, p: nat): (r: Option<Groups>)
    requires p < |s|
    ensures r.Some? <==> PairFrom(s, p)
    ensures r.Some? ==> 1 <= |r.value.first| <= 2 && AllDigits(r.value.first)
    ensures r.Some? ==> 1 <= |r.value.second| <= 2 && AllDigits(r.value.second)
  {
    if !IsDigit(s[p]) then None
    else if p + 1 < |s| && IsDigit(s[p + 1]) && LazyDigit(s, p + 2).Some? then
      var j := LazyDigit(s, p + 2).value;
      assert NoBreak(s, p + 1, j);
      Some(Groups(s[p..p + 2], DigitGroup(s, j)))
    else
      match LazyDigit(s, p + 1)
      case None => None
      case Some(j) => Some(Groups(s[p..p + 1], DigitGroup(s, j)))
  }

  /** `s.match(re)`: the leftmost start position at which a match exists. */
  function Search(s: string, p: nat): (r: Option<Groups>)
    requires p <= |s|
    ensures r.Some? <==> exists i :: p <= i < |s| && PairFrom(s, i)
    ensures r.Some? ==> 1 <= |r.value.first| <= 2 && AllDigits(r.value.first)
    ensures r.Some? ==> 1 <= |r.value.second| <= 2 && AllDigits(r.value.second)
    decreases |s| - p
  {
    if p == |s| then None
    else
      match MatchAt(s, p)
      case Some(g) => Some(g)
      case None => Search(s, p + 1)
  }

  /** Two digits on one line, the first strictly before the second. */
  ghost predicate HasDigitPair(s: string) {
    exists i :: 0 <= i < |s| && PairFrom(s, i)
  }

  /**
   * `parseMonthDay(raw)`: month and day are the numeric values of the two
   * captured groups, so leading zeros drop and both stay below 100. A result
   * exists exactly when two digits stand on the same line.
   */
  function ParseMonthDay(raw: string): (r: Option<MonthDay>)
    ensures r.Some? <==> HasDigitPair(raw)
    ensures r.Some? ==> r.value.month < 100 && r.value.day < 100
  {
    if raw == "" then None
    else
      match Search(raw, 0)
      case None => None
      case Some(g) =>
        DigitsBelow100(g.first);
        DigitsBelow100(g.second);
        Some(MonthDay(DigitsValue(g.first), DigitsValue(g.second)))
  }

  lemma DigitsBelow100(z: string)
    requires 1 <= |z| <= 2 && AllDigits(z)
    ensures DigitsValue(z) < 100
  {
    if |z| == 2 {
      assert z[..1][..0] == [];
    }
  }

  /** The lazy scan stops at the first digit of a stretch of non-digits free of line terminators. */
  lemma {:induction false} LazyDigitSkips(s: string, q: nat, j: nat)
    requires q <= j < |s| && IsDigit(s[j])
    requires forall k :: q <= k < j ==> !IsDigit(s[k]) && !IsLineTerminator(s[k])
    ensures LazyDigit(s, q) == Some(j)
    decreases j - q
  {
    if q < j {
      LazyDigitSkips(s, q + 1, j);
    }
  }

  /**
   * A month, a separator without digits or line breaks, a day and any tail
   * that does not extend a one-digit day: "02/01", "12/25", "2月1日".
   */
  lemma ParseMonthDayOfParts(a: string, sep: string, b: string, tail: string)
    requires 1 <= |a| <= 2 && AllDigits(a) && 1 <= |b| <= 2 && AllDigits(b)
    requires sep != [] && forall k :: 0 <= k < |sep| ==> !IsDigit(sep[k]) && !IsLineTerminator(sep[k])
    requires |b| == 2 || tail == [] || !IsDigit(tail[0])
    ensures ParseMonthDay(a + sep + b + tail) == Some(MonthDay(DigitsValue(a), DigitsValue(b)))
  {
    var s := a + sep + b + tail;
    var j := |a| + |sep|;
    assert s[j..j + |b|] == b;
    assert IsDigit(s[j]);
    assert forall k :: |a| <= k < j ==> s[k] == sep[k - |a|];
    LazyDigitSkips(s, |a|, j);
    if |b| == 1 && j + 1 < |s| {
      assert s[j + 1] == tail[0];
    }
    assert DigitGroup(s, j) == b;
    assert s[0..|a|] == a;
    if |a| == 1 {
      assert s[1] == sep[0];
    }
    assert MatchAt(s, 0) == Some(Groups(a, b));
  }

  /** "02/01" reads as February 1st: leading zeros drop. */
  lemma ParseLeadingZeros()
    ensures ParseMonthDay("02/01") == Some(MonthDay(2, 1))
  {
  }

  /** Lexicographic order on (month, day). */
  predicate NotAfter(x: MonthDay, y: MonthDay) {
    x.month < y.month || (x.month == y.month && x.day <= y.day)
  }

  /**
   * The comparator of `sortExamDates`: by month and then day when both sides
   * parse, by plain string comparison otherwise.
   */
  function CompareExamDates(a: string, b: string): (r: int)
    ensures ParseMonthDay(a).Some? && ParseMonthDay(b).Some? ==>
      && (r <= 0 <==> NotAfter(ParseMonthDay(a).value, ParseMonthDay(b).value))
      && (r == 0 <==> ParseMonthDay(a) == ParseMonthDay(b))
    ensures ParseMonthDay(a).None? || ParseMonthDay(b).None? ==> r == CodePointCompare(a, b)
  {
    match (ParseMonthDay(a), ParseMonthDay(b))
    case (Some(pa), Some(pb)) =>
      if pa.month != pb.month then pa.month - pb.month else pa.day - pb.day
    case _ => CodePointCompare(a, b)
  }

  /** `sortExamDates(dates)`: a sorted copy, a permutation of the input. */
  function SortExamDates(dates: seq<string>): (r: seq<string>)
    ensures multiset(r) == multiset(dates)
  {
    Sorting.SortBy(dates, CompareExamDates)
  }

  ghost predicate AllParseable(dates: seq<string>) {
    forall d :: d in dates ==> ParseMonthDay(d).Some?
  }

  /** On dates that all parse, the comparator is a total preorder. */
  lemma CompareExamDatesConsistent(dates: seq<string>)
    requires AllParseable(dates)
    ensures Sorting.ConsistentOn(CompareExamDates, dates)
  {
    forall a, b, c ensures Sorting.ConsistentAt(CompareExamDates, dates, a, b, c) {
      if a in dates && b in dates && c in dates {
        var pa, pb, pc := ParseMonthDay(a).value, ParseMonthDay(b).value, ParseMonthDay(c).value;
        assert CompareExamDates(a, b) < 0 <==> CompareExamDates(b, a) > 0;
        if NotAfter(pa, pb) && NotAfter(pb, pc) {
          assert NotAfter(pa, pc);
        }
      }
    }
  }

  /** Dates that all parse come out in (month, day) order, with no year wrap: "12/20" follows "1/15". */
  lemma SortExamDatesOrdered(dates: seq<string>)
    requires AllParseable(dates)
    ensures var r := SortExamDates(dates);
      forall i, j :: 0 <= i < j < |r| ==>
        ParseMonthDay(r[i]).Some? && ParseMonthDay(r[j]).Some? && NotAfter(ParseMonthDay(r[i]).value, ParseMonthDay(r[j]).value)
  {
    var r := SortExamDates(dates);
    CompareExamDatesConsistent(dates);
    Sorting.SortBySorted(dates, CompareExamDates);
    forall i | 0 <= i < |r| ensures ParseMonthDay(r[i]).Some? {
      assert r[i] in multiset(dates);
    }
  }

  /** Equal (month, day) dates keep their input order: the sort is stable. */
  lemma SortExamDatesStable(dates: seq<string>, e: string)
    requires AllParseable(dates) && e in dates
    ensures Sorting.Equivalents(SortExamDates(dates), CompareExamDates, e) == Sorting.Equivalents(dates, CompareExamDates, e)
  {
    CompareExamDatesConsistent(dates);
    Sorting.SortByStable(dates, CompareExamDates, e);
  }

  /** A parseable list sorted once is left as it is by a second sort. */
  lemma SortExamDatesIdempotent(dates: seq<string>)
    requires AllParseable(dates)
    ensures SortExamDates(SortExamDates(dates)) == SortExamDates(dates)
  {
    CompareExamDatesConsistent(dates);
    Sorting.SortByIdempotent(dates, CompareExamDates);
  }

  lemma ParseDecember()
    ensures ParseMonthDay("12/20") == Some(MonthDay(12, 20))
  {
  }

  lemma ParseJanuary()
    ensures ParseMonthDay("1/15") == Some(MonthDay(1, 15))
  {
  }

  /** "M/D" with one or two digits on each side parses to its two numbers. */
  lemma ParseSlashed(a: string, b: string)
    requires 1 <= |a| <= 2 && AllDigits(a) && 1 <= |b| <= 2 && AllDigits(b)
    ensures ParseMonthDay(a + "/" + b) == Some(MonthDay(DigitsValue(a), DigitsValue(b)))
  {
    ParseMonthDayOfParts(a, "/", b, "");
    assert a + "/" + b + "" == a + "/" + b;
  }

  /** Of two parseable dates, the one with the earlier month comes first, whatever the input order. */
  lemma EarlierMonthFirst(a: string, b: string)
    requires ParseMonthDay(a).Some? && ParseMonthDay(b).Some?
    requires ParseMonthDay(b).value.month < ParseMonthDay(a).value.month
    ensures SortExamDates([a, b]) == [b, a]
    ensures SortExamDates([b, a]) == [b, a]
  {
    assert [a, b][..1] == [a] && [a][..0] == [];
    assert [b, a][..1] == [b] && [b][..0] == [];
    assert Sorting.SortBy([a], CompareExamDates) == [a];
    assert Sorting.SortBy([b], CompareExamDates) == [b];
  }

  /** December sorts after January: the order knows no exam-year cycle. */
  lemma NoYearWrap()
    ensures SortExamDates(["12/20", "1/15"]) == ["1/15", "12/20"]
  {
    ParseDecember();
    ParseJanuary();
    EarlierMonthFirst("12/20", "1/15");
  }

  /** `${month}月${day}日`, or the input itself when it does not parse. */
  function ToDisplayJP(raw: string): string {
    match ParseMonthDay(raw)
    case None => raw
    case Some(md) => NatToString(md.month) + "月" + NatToString(md.day) + "日"
  }

  /** `${month}월 ${day}일`, or the input itself when it does not parse. */
  function ToDisplayKorean(raw: string): string {
    match ParseMonthDay(raw)
    case None => raw
    case Some(md) => NatToString(md.month) + "월 " + NatToString(md.day) + "일"
  }

  /** The number printed by `String(v)` for a value below 100 reads back as `v`. */
  lemma PrintedBelow100(v: nat)
    requires v < 100
    ensures 1 <= |NatToString(v)| <= 2 && AllDigits(NatToString(v)) && DigitsValue(NatToString(v)) == v
  {
    NatToStringValue(v);
  }

  /** Both display forms denote the date they were made from. */
  lemma DisplayKeepsDate(raw: string)
    ensures ParseMonthDay(ToDisplayJP(raw)) == ParseMonthDay(raw)
    ensures ParseMonthDay(ToDisplayKorean(raw)) == ParseMonthDay(raw)
    ensures ParseMonthDay(raw).None? ==> ToDisplayJP(raw) == raw && ToDisplayKorean(raw) == raw
  {
    DisplayJPKeepsDate(raw);
    DisplayKoreanKeepsDate(raw);
  }

  lemma DisplayJPKeepsDate(raw: string)
    ensures ParseMonthDay(ToDisplayJP(raw)) == ParseMonthDay(raw)
  {
    match ParseMonthDay(raw)
    case None =>
    case Some(md) =>
      PrintedBelow100(md.month);
      PrintedBelow100(md.day);
      var m, d := NatToString(md.month), NatToString(md.day);
      ParseMonthDayOfParts(m, "月", d, "日");
      assert ToDisplayJP(raw) == m + "月" + d + "日";
  }

  lemma DisplayKoreanKeepsDate(raw: string)
    ensures ParseMonthDay(ToDisplayKorean(raw)) == ParseMonthDay(raw)
  {
    match ParseMonthDay(raw)
    case None =>
    case Some(md) =>
      PrintedBelow100(md.month);
      PrintedBelow100(md.day);
      var m, d := NatToString(md.month), NatToString(md.day);
      ParseMonthDayOfParts(m, "월 ", d, "일");
      assert ToDisplayKorean(raw) == m + "월 " + d + "일";
  }

  /** Formatting an already formatted date changes nothing. */
  lemma ToDisplayIdempotent(raw: string)
    ensures ToDisplayJP(ToDisplayJP(raw)) == ToDisplayJP(raw)
    ensures ToDisplayKorean(ToDisplayKorean(raw)) == ToDisplayKorean(raw)
  {
    DisplayKeepsDate(raw);
  }

  /** "02/01" is shown as "2月1日" and "2월 1일". */
  lemma DisplayExample()
    ensures ToDisplayJP("02/01") == "2月1日"
    ensures ToDisplayKorean("02/01") == "2월 1일"
  {
    ParseLeadingZeros();
  }
}

/**
 * The school list shown for one date (src/components/SchoolList.tsx and its
 * mobile twin mobile/src/components/SchoolList.tsx, which sort the same way):
 * a sorted copy of the records, the "selected" mark and the mobile item key.
 */
module SchoolList {
  import opened Wrappers
  import opened JsText
  import opened Sorting
  import opened Records
  import WebStorage
  import MobileApp

  datatype SortOrder = NameAsc | NameDesc | DevAsc | DevDesc

  /** `a.deviation ?? -Infinity` compared with `devA - devB`; -Infinity - -Infinity is NaN, which the sort reads as 0. */
  function CompareDeviation(a: Option<int>, b: Option<int>): (c: int)
    ensures -1 <= c <= 1
    ensures c == 0 <==> a == b
    ensures a.None? && b.Some? ==> c < 0
    ensures a.Some? && b.Some? ==> (c < 0 <==> a.value < b.value)
  {
    match (a, b)
    case (None, None) => 0
    case (None, Some(_)) => -1
    case (Some(_), None) => 1
    case (Some(x), Some(y)) => if x < y then -1 else if x > y then 1 else 0
  }

  /** The comparator for each sort order; names compare in code-point order in place of Japanese collation. */
  function Comparator(order: SortOrder): (SchoolRecord, SchoolRecord) -> int {
    match order
    case NameAsc => (a: SchoolRecord, b: SchoolRecord) => CodePointCompare(a.schoolName, b.schoolName)
    case NameDesc => (a: SchoolRecord, b: SchoolRecord) => CodePointCompare(b.schoolName, a.schoolName)
    case DevAsc => (a: SchoolRecord, b: SchoolRecord) => CompareDeviation(a.deviation, b.deviation)
    case DevDesc => (a: SchoolRecord, b: SchoolRecord) => CompareDeviation(b.deviation, a.deviation)
  }

  /** `[...records].sort(cmp)`: the input list is left as it was. */
  function SortRecords(records: seq<SchoolRecord>, order: SortOrder): (r: seq<SchoolRecord>)
    ensures multiset(r) == multiset(records)
  {
    SortBy(records, Comparator(order))
  }

  /** Every sort order is a total preorder on any records. */
  lemma ComparatorConsistent(order: SortOrder, u: seq<SchoolRecord>)
    ensures ConsistentOn(Comparator(order), u)
  {
    var cmp := Comparator(order);
    forall a, b, c ensures ConsistentAt(cmp, u, a, b, c) {
      match order
      case NameAsc =>
        CodePointCompareAntisymmetric(a.schoolName, b.schoolName);
        if cmp(a, b) <= 0 && cmp(b, c) <= 0 {
          CodePointCompareTransitive(a.schoolName, b.schoolName, c.schoolName);
        }
      case NameDesc =>
        CodePointCompareAntisymmetric(a.schoolName, b.schoolName);
        if cmp(a, b) <= 0 && cmp(b, c) <= 0 {
          CodePointCompareTransitive(c.schoolName, b.schoolName, a.schoolName);
        }
      case DevAsc =>
      case DevDesc =>
    }
  }

  /** Deviation `x` ranks at or above `y`, no deviation ranking below every number. */
  predicate AtLeast(x: Option<int>, y: Option<int>) {
    y.None? || (x.Some? && x.value >= y.value)
  }

  /** Highest deviation first: deviations never increase down the list, and records without one come last. */
  lemma DevDescOrdered(records: seq<SchoolRecord>)
    ensures var r := SortRecords(records, DevDesc);
      forall i, j :: 0 <= i < j < |r| ==> AtLeast(r[i].deviation, r[j].deviation)
  {
    ComparatorConsistent(DevDesc, records);
    SortBySorted(records, Comparator(DevDesc));
  }

  /** Lowest deviation first: records without one come first, then deviations never decrease. */
  lemma DevAscOrdered(records: seq<SchoolRecord>)
    ensures var r := SortRecords(records, DevAsc);
      forall i, j :: 0 <= i < j < |r| ==> AtLeast(r[j].deviation, r[i].deviation)
  {
    ComparatorConsistent(DevAsc, records);
    SortBySorted(records, Comparator(DevAsc));
  }

  /** Records ranked equal (same deviation, or both without one; or the same name) keep their input order. */
  lemma SortRecordsStable(records: seq<SchoolRecord>, order: SortOrder, e: SchoolRecord)
    requires e in records
    ensures Equivalents(SortRecords(records, order), Comparator(order), e) == Equivalents(records, Comparator(order), e)
  {
    ComparatorConsistent(order, records);
    SortByStable(records, Comparator(order), e);
  }

  /** A list already in the chosen order is shown as it is. */
  lemma SortRecordsIdempotent(records: seq<SchoolRecord>, order: SortOrder)
    ensures SortRecords(SortRecords(records, order), order) == SortRecords(records, order)
  {
    ComparatorConsistent(order, records);
    SortByIdempotent(records, Comparator(order));
  }

  /** `isSel`: the record matches the current choice by school name and exam date; the exam name is not compared. */
  predicate IsSelected(selected: Option<SchoolRecord>, r: SchoolRecord) {
    selected.Some? && selected.value.schoolName == r.schoolName && selected.value.examDate == r.examDate
  }

  /** The selected mark agrees with the web completion key, for dates without '_'. */
  lemma SelectedMatchesKey(s: SchoolRecord, r: SchoolRecord)
    requires '_' !in s.examDate && '_' !in r.examDate
    ensures IsSelected(Some(s), r) <==> WebStorage.SchoolKey(s) == WebStorage.SchoolKey(r)
  {
    if WebStorage.SchoolKey(s) == WebStorage.SchoolKey(r) {
      WebStorage.SchoolKeyInjective(s, r);
    }
  }

  /** The mobile list's item key: the id, or `schoolName_examName_examDate` without one. */
  function ItemKey(r: SchoolRecord): (k: string)
    ensures r.id.Some? && r.id.value != "" ==> k == r.id.value
    ensures r.id.None? || r.id.value == "" ==>
      && |k| == |r.schoolName| + |r.examName| + |r.examDate| + 2
      && k[..|r.schoolName|] == r.schoolName && k[|r.schoolName|] == '_'
      && k[|r.schoolName| + 1..|r.schoolName| + 1 + |r.examName|] == r.examName
      && k[|r.schoolName| + 1 + |r.examName|] == '_'
      && k[|k| - |r.examDate|..] == r.examDate
  {
    if r.id.Some? && r.id.value != "" then r.id.value
    else r.schoolName + "_" + r.examName + "_" + r.examDate
  }

  /** Records tagged in one batch have distinct item keys. */
  lemma ItemKeysUnique(data: seq<SchoolRecord>, i: int, j: int)
    requires 0 <= i < |data| && 0 <= j < |data| && i != j
    ensures ItemKey(MobileApp.Tags(data)[i]) != ItemKey(MobileApp.Tags(data)[j])
  {
    MobileApp.TagIdsUnique(data, i, j);
    var ti, tj := MobileApp.Tags(data)[i], MobileApp.Tags(data)[j];
    assert ti.id.value != "" && tj.id.value != "";
  }
}

/**
 * What the web front end keeps in browser storage (src/utils/storage.ts and
 * its compiled copy src/utils/storage.js, which holds the same rules): the
 * two-part completion key and the defaults applied when a stored value is
 * missing or unusable. The storage itself and JSON are not modelled; a read
 * is given as its outcome.
 */
module WebStorage {
  import opened Wrappers
  import opened JsText
  import opened Records

  /** The outcome of reading one stored JSON item. */
  datatype StoredItem<T> =
    | NoItem          // never written, or written as ''
    | Unreadable      // the storage or `JSON.parse` threw
    | Parsed(value: T)

  /** `loadSelections` / `loadCompletions`: a missing or unreadable item loads as an empty map. */
  function LoadOrEmpty<V>(item: StoredItem<map<string, V>>): (m: map<string, V>)
    ensures !item.Parsed? ==> m == map[]
    ensures item.Parsed? ==> m == item.value
  {
    match item
    case Parsed(v) => v
    case _ => map[]
  }

  /** `schoolKey(record)`: exam date and school name joined by "__"; the exam name plays no part. */
  function SchoolKey(r: SchoolRecord): string {
    r.examDate + "__" + r.schoolName
  }

  /** Two exams of the same school on the same date share one key, hence one completion entry. */
  lemma SchoolKeyIgnoresExamName(r: SchoolRecord, otherExam: string)
    ensures SchoolKey(r.(examName := otherExam)) == SchoolKey(r)
    ensures r.examName != otherExam ==> r.(examName := otherExam) != r
  {
  }

  /** For dates without '_', the key determines the exam date and the school name. */
  lemma SchoolKeyInjective(r1: SchoolRecord, r2: SchoolRecord)
    requires '_' !in r1.examDate && '_' !in r2.examDate
    requires SchoolKey(r1) == SchoolKey(r2)
    ensures r1.examDate == r2.examDate && r1.schoolName == r2.schoolName
  {
    var k := SchoolKey(r1);
    var n1, n2 := |r1.examDate|, |r2.examDate|;
    assert k[n1] == '_' && k[..n1] == r1.examDate;
    assert SchoolKey(r2)[n2] == '_' && SchoolKey(r2)[..n2] == r2.examDate;
    assert k[n1 + 2..] == r1.schoolName;
    assert SchoolKey(r2)[n2 + 2..] == r2.schoolName;
  }

  const DefaultUserName := "シア"

  const DefaultUserDeviation := 60

  /** `loadUserName()`: the stored name, or 'シア' when none is stored, it is empty or the read fails. */
  function LoadUserName(stored: Option<string>): (name: string)
    ensures name != ""
    ensures stored.Some? && stored.value != "" ==> name == stored.value
    ensures stored.None? || stored.value == "" ==> name == DefaultUserName
  {
    match stored
    case Some(v) => if v != "" then v else DefaultUserName
    case None => DefaultUserName
  }

  /**
   * `loadUserDeviation()`: `parseInt` of the stored text, with 60 standing in
   * for a missing, empty, unparsable or zero value. The result is never 0.
   */
  function LoadUserDeviation(stored: Option<string>): int {
    match stored
    case None => DefaultUserDeviation
    case Some(v) =>
      if v == "" then DefaultUserDeviation
      else
        match ParseInt(v)
        case None => DefaultUserDeviation
        case Some(n) => if n == 0 then DefaultUserDeviation else n
  }

  /** What `LoadUserDeviation` gives: never 0, and either 60 or the parsed value; 60 whenever nothing usable is stored. */
  lemma LoadUserDeviationSpec(stored: Option<string>)
    ensures var dev := LoadUserDeviation(stored);
      && dev != 0
      && (dev == DefaultUserDeviation || (stored.Some? && ParseInt(stored.value) == Some(dev)))
      && (stored.None? || stored.value == "" || ParseInt(stored.value).None? ==> dev == DefaultUserDeviation)
  {
  }

  /** A saved deviation, written as `String(dev)`, loads back as itself, except 0, which loads as 60. */
  lemma UserDeviationRoundTrip(dev: int)
    ensures LoadUserDeviation(Some(IntToString(dev))) == if dev == 0 then DefaultUserDeviation else dev
  {
    ParseIntOfIntToString(dev);
  }
}

/**
 * The mobile app's completion keys (mobile/src/utils/storage.ts): three
 * parts, date, school and exam name, and the migration that rebuilds the
 * completion map for the current selections, carrying entries stored under
 * the legacy two-part key and dropping entries no selection refers to.
 */
module MobileStorage {
  import opened Records

  /** `schoolKey(r)`: exam date, school name and exam name joined by "__". */
  function SchoolKey(r: SchoolRecord): string {
    r.examDate + "__" + r.schoolName + "__" + r.examName
  }

  /** The two-part key earlier versions stored completions under. */
  function LegacyKey(r: SchoolRecord): string {
    r.examDate + "__" + r.schoolName
  }

  /** The current key extends the legacy key by the exam name. */
  lemma SchoolKeyExtendsLegacy(r: SchoolRecord)
    ensures SchoolKey(r) == LegacyKey(r) + "__" + r.examName
  {
  }

  /** Two exams of one school on one date get different keys. */
  lemma SchoolKeySeparatesExams(r: SchoolRecord, otherExam: string)
    requires otherExam != r.examName
    ensures SchoolKey(r.(examName := otherExam)) != SchoolKey(r)
  {
    var p := LegacyKey(r) + "__";
    SchoolKeyExtendsLegacy(r);
    SchoolKeyExtendsLegacy(r.(examName := otherExam));
    assert SchoolKey(r) == p + r.examName && SchoolKey(r.(examName := otherExam)) == p + otherExam;
    if |otherExam| == |r.examName| {
      var i :| 0 <= i < |otherExam| && otherExam[i] != r.examName[i];
      assert (p + otherExam)[|p| + i] != (p + r.examName)[|p| + i];
    }
  }

  /** The status the migration gives one selected record: current key, else legacy key, else blank. */
  function Upgrade(completions: map<string, CompletionStatus>, r: SchoolRecord): (st: CompletionStatus)
    ensures SchoolKey(r) in completions ==> st == completions[SchoolKey(r)]
    ensures SchoolKey(r) !in completions && LegacyKey(r) in completions ==> st == completions[LegacyKey(r)]
    ensures SchoolKey(r) !in completions && LegacyKey(r) !in completions ==> st == Blank
  {
    if SchoolKey(r) in completions then completions[SchoolKey(r)]
    else if LegacyKey(r) in completions then completions[LegacyKey(r)]
    else Blank
  }

  /**
   * `out` is a result `migrateCompletionKeys(completions, records)` can give:
   * exactly one entry per selected record's key, each upgraded from a record
   * with that key. Which record wins when two share a key depends on the
   * visiting order, so the relation leaves it open.
   */
  ghost predicate IsMigration(completions: map<string, CompletionStatus>, records: map<string, SchoolRecord>, out: map<string, CompletionStatus>) {
    && (forall d :: Covered(records, out, d))
    && (forall k :: Witnessed(completions, records, out, k))
  }

  /** A record selected for date `d` has an entry in `out`. */
  ghost predicate Covered(records: map<string, SchoolRecord>, out: map<string, CompletionStatus>, d: string) {
    d in records ==> SchoolKey(records[d]) in out
  }

  /** An entry under `k` is the upgrade of some selected record whose key is `k`. */
  ghost predicate Witnessed(completions: map<string, CompletionStatus>, records: map<string, SchoolRecord>, out: map<string, CompletionStatus>, k: string) {
    k in out ==> exists d :: WonBy(completions, records, out, k, d)
  }

  /** The entry `out[k]` is the upgrade of the record selected for date `d`, whose key is `k`. */
  ghost predicate WonBy(completions: map<string, CompletionStatus>, records: map<string, SchoolRecord>, out: map<string, CompletionStatus>, k: string, d: string) {
    d in records && SchoolKey(records[d]) == k && k in out && out[k] == Upgrade(completions, records[d])
  }

  /** `migrateCompletionKeys`: builds a fresh map entry by entry; the input map is only read. */
  method MigrateCompletionKeys(completions: map<string, CompletionStatus>, records: map<string, SchoolRecord>)
    returns (upgraded: map<string, CompletionStatus>)
    ensures IsMigration(completions, records, upgraded)
  {
    upgraded := map[];
    var todo := records.Keys;
    ghost var done: set<string> := {};
    ghost var winner: map<string, string> := map[];
    while todo != {}
      invariant todo + done == records.Keys && todo !! done
      invariant MigratedSoFar(completions, records, done, upgraded, winner)
      decreases todo
    {
      var d :| d in todo;
      var rec := records[d];
      var newKey := SchoolKey(rec);
      var oldKey := LegacyKey(rec);
      var status := if newKey in completions then completions[newKey]
        else if oldKey in completions then completions[oldKey]
        else Blank;
      MigrationStep(completions, records, done, upgraded, winner, d);
      upgraded := upgraded[newKey := status];
      winner := winner[newKey := d];
      todo := todo - {d};
      done := done + {d};
    }
    MigrationDone(completions, records, upgraded, winner);
  }

  /**
   * The loop invariant: every visited date's record has an entry, and each
   * entry is the upgrade of the visited record `winner` names for it.
   */
  ghost predicate MigratedSoFar(completions: map<string, CompletionStatus>, records: map<string, SchoolRecord>,
                                done: set<string>, out: map<string, CompletionStatus>, winner: map<string, string>) {
    && done <= records.Keys
    && winner.Keys == out.Keys
    && (forall d :: d in done ==> Covered(records, out, d))
    && (forall k :: k in winner ==> winner[k] in done && WonBy(completions, records, out, k, winner[k]))
  }

  lemma MigrationStep(completions: map<string, CompletionStatus>, records: map<string, SchoolRecord>,
                      done: set<string>, out: map<string, CompletionStatus>, winner: map<string, string>, d: string)
    requires d in records && MigratedSoFar(completions, records, done, out, winner)
    ensures var k := SchoolKey(records[d]);
      MigratedSoFar(completions, records, done + {d}, out[k := Upgrade(completions, records[d])], winner[k := d])
  {
  }

  lemma MigrationDone(completions: map<string, CompletionStatus>, records: map<string, SchoolRecord>,
                      out: map<string, CompletionStatus>, winner: map<string, string>)
    requires MigratedSoFar(completions, records, records.Keys, out, winner)
    ensures IsMigration(completions, records, out)
  {
    forall d ensures Covered(records, out, d) {
    }
    forall k ensures Witnessed(completions, records, out, k) {
      if k in out {
        assert WonBy(completions, records, out, k, winner[k]);
      }
    }
  }

  /** An entry already stored under a selected record's current key is kept as it is. */
  lemma MigrationKeepsCurrent(completions: map<string, CompletionStatus>, records: map<string, SchoolRecord>, out: map<string, CompletionStatus>, d: string)
    requires IsMigration(completions, records, out)
    requires d in records && SchoolKey(records[d]) in completions
    ensures SchoolKey(records[d]) in out && out[SchoolKey(records[d])] == completions[SchoolKey(records[d])]
  {
    var k := SchoolKey(records[d]);
    assert Covered(records, out, d);
    assert Witnessed(completions, records, out, k);
    var d' :| WonBy(completions, records, out, k, d');
  }

  /** Keys that belong to no selected record are dropped (orphan pruning). */
  lemma MigrationPrunesOrphans(completions: map<string, CompletionStatus>, records: map<string, SchoolRecord>, out: map<string, CompletionStatus>, k: string)
    requires IsMigration(completions, records, out)
    requires forall d :: d in records ==> SchoolKey(records[d]) != k
    ensures k !in out
  {
    assert Witnessed(completions, records, out, k);
  }

  /** Migrating a migrated map again with the same selections changes nothing. */
  lemma MigrationIdempotent(completions: map<string, CompletionStatus>, records: map<string, SchoolRecord>, once: map<string, CompletionStatus>, twice: map<string, CompletionStatus>)
    requires IsMigration(completions, records, once)
    requires IsMigration(once, records, twice)
    ensures twice == once
  {
    forall k | k in once ensures k in twice {
      assert Witnessed(completions, records, once, k);
      var d :| WonBy(completions, records, once, k, d);
      assert Covered(records, twice, d);
    }
    forall k | k in twice ensures k in once && twice[k] == once[k] {
      assert Witnessed(once, records, twice, k);
      var d :| WonBy(once, records, twice, k, d);
      assert Covered(records, once, d);
    }
  }

  /** When records that share a key also share its upgrade (as when no two selected records share a key), the result is unique. */
  lemma MigrationDeterministic(completions: map<string, CompletionStatus>, records: map<string, SchoolRecord>, o1: map<string, CompletionStatus>, o2: map<string, CompletionStatus>)
    requires forall d1, d2 :: d1 in records && d2 in records && SchoolKey(records[d1]) == SchoolKey(records[d2]) ==>
      Upgrade(completions, records[d1]) == Upgrade(completions, records[d2])
    requires IsMigration(completions, records, o1) && IsMigration(completions, records, o2)
    ensures o1 == o2
  {
    forall k | k in o1 ensures k in o2 && o1[k] == o2[k] {
      assert Witnessed(completions, records, o1, k);
      var d1 :| WonBy(completions, records, o1, k, d1);
      assert Covered(records, o2, d1);
      assert Witnessed(completions, records, o2, k);
      var d2 :| WonBy(completions, records, o2, k, d2);
    }
    forall k | k in o2 ensures k in o1 {
      assert Witnessed(completions, records, o2, k);
      var d2 :| WonBy(completions, records, o2, k, d2);
      assert Covered(records, o1, d2);
    }
  }
}

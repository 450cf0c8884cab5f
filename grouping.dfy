/**
 * Grouping a list of records by exam date, as both loaders do: each date's
 * list in input order, and the dates in the order they first occur (the key
 * order `Object.keys` reports for such string keys).
 */
module Grouping {
  import opened Records

  /** The records of `s` whose exam date is `k`, in their order in `s`. */
  function OfDate(s: seq<SchoolRecord>, k: string): (r: seq<SchoolRecord>)
    ensures forall x :: x in r ==> x in s && x.examDate == k
  {
    if s == [] then []
    else OfDate(s[..|s| - 1], k) + (if s[|s| - 1].examDate == k then [s[|s| - 1]] else [])
  }

  /** `grouped` after the `forEach` has pushed every record of `s` onto its date's list. */
  function Grouped(s: seq<SchoolRecord>): map<string, seq<SchoolRecord>> {
    if s == [] then map[]
    else
      var g := Grouped(s[..|s| - 1]);
      var x := s[|s| - 1];
      g[x.examDate := (if x.examDate in g then g[x.examDate] else []) + [x]]
  }

  /** `Object.keys(grouped)`: the dates in the order they first occur. */
  function FirstSeen(s: seq<SchoolRecord>): seq<string> {
    if s == [] then []
    else
      var f := FirstSeen(s[..|s| - 1]);
      var d := s[|s| - 1].examDate;
      if d in f then f else f + [d]
  }

  /** Each group holds exactly the records of its date in input order; the keys are the dates that occur. */
  lemma {:induction false} GroupedByDate(s: seq<SchoolRecord>)
    ensures forall k :: k in Grouped(s) <==> k in FirstSeen(s)
    ensures forall k :: k in FirstSeen(s) <==> OfDate(s, k) != []
    ensures forall k :: k in Grouped(s) ==> Grouped(s)[k] == OfDate(s, k)
  {
    if s != [] {
      GroupedByDate(s[..|s| - 1]);
    }
  }

  /** One more record: it joins its date's group, and its date becomes a key if it is new. */
  lemma GroupedSnoc(s: seq<SchoolRecord>, x: SchoolRecord)
    ensures var g := Grouped(s);
      Grouped(s + [x]) == g[x.examDate := (if x.examDate in g then g[x.examDate] else []) + [x]]
    ensures FirstSeen(s + [x]) == if x.examDate in Grouped(s) then FirstSeen(s) else FirstSeen(s) + [x.examDate]
  {
    assert (s + [x])[..|s|] == s;
    GroupedByDate(s);
  }

  /** The date keys are distinct. */
  lemma {:induction false} FirstSeenDistinct(s: seq<SchoolRecord>)
    ensures forall i, j :: 0 <= i < j < |FirstSeen(s)| ==> FirstSeen(s)[i] != FirstSeen(s)[j]
  {
    if s != [] {
      FirstSeenDistinct(s[..|s| - 1]);
    }
  }

  lemma {:induction false} OfDateHas(s: seq<SchoolRecord>, i: int, k: string)
    requires 0 <= i < |s| && s[i].examDate == k
    ensures OfDate(s, k) != []
  {
    if i < |s| - 1 {
      OfDateHas(s[..|s| - 1], i, k);
    }
  }

  /** The number of records held by the groups listed in `keys`. */
  function TotalSize(g: map<string, seq<SchoolRecord>>, keys: seq<string>): nat
    requires forall k :: k in keys ==> k in g
  {
    if keys == [] then 0 else TotalSize(g, keys[..|keys| - 1]) + |g[keys[|keys| - 1]]|
  }

  lemma {:induction false} TotalSizeOther(g: map<string, seq<SchoolRecord>>, keys: seq<string>, d: string, v: seq<SchoolRecord>)
    requires forall k :: k in keys ==> k in g
    requires d !in keys
    ensures TotalSize(g[d := v], keys) == TotalSize(g, keys)
  {
    if keys != [] {
      TotalSizeOther(g, keys[..|keys| - 1], d, v);
    }
  }

  lemma {:induction false} TotalSizeGrow(g: map<string, seq<SchoolRecord>>, keys: seq<string>, d: string, x: SchoolRecord)
    requires forall k :: k in keys ==> k in g
    requires forall i, j :: 0 <= i < j < |keys| ==> keys[i] != keys[j]
    requires d in keys
    ensures TotalSize(g[d := g[d] + [x]], keys) == TotalSize(g, keys) + 1
  {
    var init, last := keys[..|keys| - 1], keys[|keys| - 1];
    if last == d {
      assert d !in init;
      TotalSizeOther(g, init, d, g[d] + [x]);
    } else {
      TotalSizeGrow(g, init, d, x);
    }
  }

  /** The group keys are exactly the first-seen dates. */
  lemma {:induction false} GroupKeys(s: seq<SchoolRecord>)
    ensures forall k :: k in FirstSeen(s) <==> k in Grouped(s)
  {
    if s != [] {
      GroupKeys(s[..|s| - 1]);
    }
  }

  lemma CountStep(g: map<string, seq<SchoolRecord>>, f: seq<string>, x: SchoolRecord)
    requires forall k :: k in f <==> k in g
    requires forall i, j :: 0 <= i < j < |f| ==> f[i] != f[j]
    ensures var g', f' := g[x.examDate := (if x.examDate in g then g[x.examDate] else []) + [x]],
                          if x.examDate in g then f else f + [x.examDate];
      (forall k :: k in f' ==> k in g') && TotalSize(g', f') == TotalSize(g, f) + 1
  {
    var d := x.examDate;
    if d in g {
      TotalSizeGrow(g, f, d, x);
    } else {
      TotalSizeOther(g, f, d, [x]);
      var g' := g[d := [x]];
      assert (f + [d])[..|f|] == f;
      assert TotalSize(g', f + [d]) == TotalSize(g', f) + |g'[d]|;
      assert [] + [x] == [x];
    }
  }

  /** Grouping loses and duplicates nothing: the groups together hold every record once. */
  lemma {:induction false} GroupedKeepsCount(s: seq<SchoolRecord>)
    ensures forall k :: k in FirstSeen(s) ==> k in Grouped(s)
    ensures TotalSize(Grouped(s), FirstSeen(s)) == |s|
  {
    if s != [] {
      var init := s[..|s| - 1];
      GroupedKeepsCount(init);
      GroupKeys(init);
      FirstSeenDistinct(init);
      CountStep(Grouped(init), FirstSeen(init), s[|s| - 1]);
    }
  }

  /** One step of the grouping loop: open the date's group if needed, then push the record. */
  lemma GroupStep(prefix: seq<SchoolRecord>, t: SchoolRecord, grouped: map<string, seq<SchoolRecord>>, keys: seq<string>)
    requires grouped == Grouped(prefix) && keys == FirstSeen(prefix)
    ensures var withGroup := if t.examDate !in grouped then grouped[t.examDate := []] else grouped;
      && withGroup[t.examDate := withGroup[t.examDate] + [t]] == Grouped(prefix + [t])
      && (if t.examDate !in grouped then keys + [t.examDate] else keys) == FirstSeen(prefix + [t])
  {
    GroupedSnoc(prefix, t);
  }
}

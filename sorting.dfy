/**
 * `Array.prototype.sort(compare)` applied to a copy of a list. The sort
 * JavaScript engines use is stable, and a stable sort under a comparator that
 * behaves as a total preorder on the elements has exactly one possible
 * result; insertion sort computes that result.
 */
module Sorting {
  /** Every element of `s` also occurs in `u`. */
  ghost predicate Within<T>(s: seq<T>, u: seq<T>) {
    forall y :: y in s ==> y in u
  }

  /**
   * On the elements of `u`, the sign of `cmp` is antisymmetric and `cmp(a, b) <= 0`
   * is transitive: `cmp` is a total preorder there. The facts are stated per
   * triple, so that a proof draws them one at a time through `Antisymmetric`
   * and `Transitive`.
   */
  ghost predicate ConsistentOn<T(!new)>(cmp: (T, T) -> int, u: seq<T>) {
    forall a, b, c :: ConsistentAt(cmp, u, a, b, c)
  }

  ghost predicate ConsistentAt<T>(cmp: (T, T) -> int, u: seq<T>, a: T, b: T, c: T) {
    a in u && b in u && c in u ==>
      && (cmp(a, b) < 0 <==> cmp(b, a) > 0)
      && (cmp(a, b) <= 0 && cmp(b, c) <= 0 ==> cmp(a, c) <= 0)
  }

  lemma Antisymmetric<T(!new)>(cmp: (T, T) -> int, u: seq<T>, a: T, b: T)
    requires ConsistentOn(cmp, u) && a in u && b in u
    ensures cmp(a, b) < 0 <==> cmp(b, a) > 0
    ensures cmp(a, b) > 0 <==> cmp(b, a) < 0
    ensures cmp(a, b) == 0 <==> cmp(b, a) == 0
  {
    assert ConsistentAt(cmp, u, a, b, a);
    assert ConsistentAt(cmp, u, b, a, b);
  }

  lemma Transitive<T(!new)>(cmp: (T, T) -> int, u: seq<T>, a: T, b: T, c: T)
    requires ConsistentOn(cmp, u) && a in u && b in u && c in u
    requires cmp(a, b) <= 0 && cmp(b, c) <= 0
    ensures cmp(a, c) <= 0
  {
    assert ConsistentAt(cmp, u, a, b, c);
  }

  /** No later element compares below an earlier one. */
  ghost predicate SortedBy<T>(s: seq<T>, cmp: (T, T) -> int) {
    forall i, j :: 0 <= i < j < |s| ==> cmp(s[i], s[j]) <= 0
  }

  /** Places `x` after the last element it does not compare below. */
  function Insert<T>(s: seq<T>, x: T, cmp: (T, T) -> int): (r: seq<T>)
    ensures multiset(r) == multiset(s) + multiset{x}
  {
    if s == [] || cmp(x, s[|s| - 1]) >= 0 then s + [x]
    else
      assert s == s[..|s| - 1] + [s[|s| - 1]];
      Insert(s[..|s| - 1], x, cmp) + [s[|s| - 1]]
  }

  /** The sorted copy `[...s].sort(cmp)`; `s` itself is a value and stays as it was. */
  function SortBy<T>(s: seq<T>, cmp: (T, T) -> int): (r: seq<T>)
    ensures multiset(r) == multiset(s)
    ensures |r| == |s|
  {
    if s == [] then []
    else
      assert s == s[..|s| - 1] + [s[|s| - 1]];
      Insert(SortBy(s[..|s| - 1], cmp), s[|s| - 1], cmp)
  }

  /** The elements of `s` that `cmp` ranks equal to `e`, in their order in `s`. */
  function Equivalents<T>(s: seq<T>, cmp: (T, T) -> int, e: T): seq<T> {
    if s == [] then []
    else Equivalents(s[..|s| - 1], cmp, e) + (if cmp(s[|s| - 1], e) == 0 then [s[|s| - 1]] else [])
  }

  lemma {:induction false} EquivalentsAppend<T>(a: seq<T>, b: seq<T>, cmp: (T, T) -> int, e: T)
    ensures Equivalents(a + b, cmp, e) == Equivalents(a, cmp, e) + Equivalents(b, cmp, e)
  {
    if b != [] {
      assert (a + b)[..|a + b| - 1] == a + b[..|b| - 1];
      EquivalentsAppend(a, b[..|b| - 1], cmp, e);
    } else {
      assert a + b == a;
    }
  }

  lemma {:induction false} InsertSorted<T(!new)>(s: seq<T>, x: T, cmp: (T, T) -> int, u: seq<T>)
    requires ConsistentOn(cmp, u) && Within(s, u) && x in u
    requires SortedBy(s, cmp)
    ensures SortedBy(Insert(s, x, cmp), cmp)
  {
    if s == [] || cmp(x, s[|s| - 1]) >= 0 {
      if s != [] {
        var last := s[|s| - 1];
        assert last in s;
        Antisymmetric(cmp, u, x, last);
        forall i | 0 <= i < |s| ensures cmp(s[i], x) <= 0 {
          if i < |s| - 1 {
            assert s[i] in s;
            Transitive(cmp, u, s[i], last, x);
          }
        }
      }
    } else {
      var init, last := s[..|s| - 1], s[|s| - 1];
      assert last in s;
      InsertSorted(init, x, cmp, u);
      var t := Insert(init, x, cmp);
      forall y | y in t ensures cmp(y, last) <= 0 {
        assert y in multiset(t);
        if y != x {
          var i :| 0 <= i < |init| && init[i] == y;
          assert s[i] == y;
        }
      }
      var r := t + [last];
      forall i, j | 0 <= i < j < |r| ensures cmp(r[i], r[j]) <= 0 {
        assert r[i] == t[i] && t[i] in t;
        if j < |t| {
          assert r[j] == t[j];
        }
      }
    }
  }

  lemma {:induction false} SortBySortedWithin<T(!new)>(s: seq<T>, cmp: (T, T) -> int, u: seq<T>)
    requires ConsistentOn(cmp, u) && Within(s, u)
    ensures SortedBy(SortBy(s, cmp), cmp)
  {
    if s != [] {
      var init := s[..|s| - 1];
      assert s[|s| - 1] in s;
      SortBySortedWithin(init, cmp, u);
      var t := SortBy(init, cmp);
      forall y | y in t ensures y in u {
        assert y in multiset(init);
      }
      InsertSorted(t, s[|s| - 1], cmp, u);
    }
  }

  /** The result is ordered whenever `cmp` is a total preorder on the elements. */
  lemma SortBySorted<T(!new)>(s: seq<T>, cmp: (T, T) -> int)
    requires ConsistentOn(cmp, s)
    ensures SortedBy(SortBy(s, cmp), cmp)
  {
    SortBySortedWithin(s, cmp, s);
  }

  lemma {:induction false} InsertStable<T(!new)>(s: seq<T>, x: T, cmp: (T, T) -> int, e: T, u: seq<T>)
    requires ConsistentOn(cmp, u) && Within(s, u) && x in u && e in u
    ensures Equivalents(Insert(s, x, cmp), cmp, e) == Equivalents(s, cmp, e) + Equivalents([x], cmp, e)
  {
    if s == [] || cmp(x, s[|s| - 1]) >= 0 {
      EquivalentsAppend(s, [x], cmp, e);
    } else {
      var init, last := s[..|s| - 1], s[|s| - 1];
      assert last in s;
      InsertStable(init, x, cmp, e, u);
      EquivalentsAppend(Insert(init, x, cmp), [last], cmp, e);
      EquivalentsAppend(init, [last], cmp, e);
      assert s == init + [last];
      if cmp(x, e) == 0 {
        Antisymmetric(cmp, u, x, e);
        Antisymmetric(cmp, u, x, last);
        if cmp(last, e) <= 0 {
          Transitive(cmp, u, last, e, x);
        }
      }
    }
  }

  lemma {:induction false} SortByStableWithin<T(!new)>(s: seq<T>, cmp: (T, T) -> int, e: T, u: seq<T>)
    requires ConsistentOn(cmp, u) && Within(s, u) && e in u
    ensures Equivalents(SortBy(s, cmp), cmp, e) == Equivalents(s, cmp, e)
  {
    if s != [] {
      var init, last := s[..|s| - 1], s[|s| - 1];
      assert last in s;
      SortByStableWithin(init, cmp, e, u);
      var t := SortBy(init, cmp);
      forall y | y in t ensures y in u {
        assert y in multiset(init);
      }
      InsertStable(t, last, cmp, e, u);
      EquivalentsAppend(init, [last], cmp, e);
      assert s == init + [last];
    }
  }

  /**
   * Stability: the elements ranked equal to any `e` of the input keep their
   * input order.
   */
  lemma SortByStable<T(!new)>(s: seq<T>, cmp: (T, T) -> int, e: T)
    requires ConsistentOn(cmp, s) && e in s
    ensures Equivalents(SortBy(s, cmp), cmp, e) == Equivalents(s, cmp, e)
  {
    SortByStableWithin(s, cmp, e, s);
  }

  lemma {:induction false} SortByOfSortedWithin<T(!new)>(s: seq<T>, cmp: (T, T) -> int, u: seq<T>)
    requires ConsistentOn(cmp, u) && Within(s, u)
    requires SortedBy(s, cmp)
    ensures SortBy(s, cmp) == s
  {
    if s != [] {
      var init, last := s[..|s| - 1], s[|s| - 1];
      SortByOfSortedWithin(init, cmp, u);
      if init != [] {
        assert init[|init| - 1] in s && last in s;
        Antisymmetric(cmp, u, init[|init| - 1], last);
      }
      assert s == init + [last];
    }
  }

  /** A list that is already in order comes back unchanged. */
  lemma SortByOfSorted<T(!new)>(s: seq<T>, cmp: (T, T) -> int)
    requires ConsistentOn(cmp, s) && SortedBy(s, cmp)
    ensures SortBy(s, cmp) == s
  {
    SortByOfSortedWithin(s, cmp, s);
  }

  /** Sorting twice gives the same list as sorting once. */
  lemma SortByIdempotent<T(!new)>(s: seq<T>, cmp: (T, T) -> int)
    requires ConsistentOn(cmp, s)
    ensures SortBy(SortBy(s, cmp), cmp) == SortBy(s, cmp)
  {
    var t := SortBy(s, cmp);
    SortBySorted(s, cmp);
    forall y | y in t ensures y in s {
      assert y in multiset(s);
    }
    SortByOfSortedWithin(t, cmp, s);
  }
}

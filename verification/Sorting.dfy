/**
 Stable sorting by an integer key, as `sort_by_key` orders a vector: elements
 with equal keys keep their order.
 */
module Sorting {

  ghost predicate SortedBy<T>(s: seq<T>, key: T -> int) {
    forall i, j :: 0 <= i < j < |s| ==> key(s[i]) <= key(s[j])
  }

  function Insert<T>(s: seq<T>, x: T, key: T -> int): seq<T> {
    if s == [] || key(s[|s| - 1]) <= key(x) then s + [x]
    else Insert(s[..|s| - 1], x, key) + [s[|s| - 1]]
  }

  function SortBy<T>(s: seq<T>, key: T -> int): seq<T> {
    if s == [] then [] else Insert(SortBy(s[..|s| - 1], key), s[|s| - 1], key)
  }

  /** The elements whose key is `c`, in order. */
  function Keyed<T>(s: seq<T>, key: T -> int, c: int): seq<T> {
    if s == [] then []
    else Keyed(s[..|s| - 1], key, c) + if key(s[|s| - 1]) == c then [s[|s| - 1]] else []
  }

  lemma KeyedSnoc<T>(s: seq<T>, x: T, key: T -> int, c: int)
    ensures Keyed(s + [x], key, c) == Keyed(s, key, c) + if key(x) == c then [x] else []
  {
    assert (s + [x])[..|s|] == s;
  }

  lemma {:induction false} KeyedNone<T>(s: seq<T>, key: T -> int, c: int)
    requires forall i :: 0 <= i < |s| ==> key(s[i]) != c
    ensures Keyed(s, key, c) == []
  {
    if s != [] {
      KeyedNone(s[..|s| - 1], key, c);
    }
  }

  lemma {:induction false} InsertPermutes<T>(s: seq<T>, x: T, key: T -> int)
    ensures multiset(Insert(s, x, key)) == multiset(s) + multiset{x}
    ensures |Insert(s, x, key)| == |s| + 1
  {
    if !(s == [] || key(s[|s| - 1]) <= key(x)) {
      var before, last := s[..|s| - 1], s[|s| - 1];
      InsertPermutes(before, x, key);
      assert s == before + [last];
    }
  }

  lemma InsertMembers<T>(s: seq<T>, x: T, key: T -> int, y: T)
    ensures y in Insert(s, x, key) <==> y in s || y == x
  {
    InsertPermutes(s, x, key);
    assert y in multiset(Insert(s, x, key)) <==> y in multiset(s) + multiset{x};
  }

  lemma {:induction false} InsertSorts<T>(s: seq<T>, x: T, key: T -> int)
    requires SortedBy(s, key)
    ensures SortedBy(Insert(s, x, key), key)
  {
    if !(s == [] || key(s[|s| - 1]) <= key(x)) {
      var before, last := s[..|s| - 1], s[|s| - 1];
      InsertSorts(before, x, key);
      var r := Insert(before, x, key);
      forall i | 0 <= i < |r| ensures key(r[i]) <= key(last) {
        InsertMembers(before, x, key, r[i]);
        assert r[i] == x || r[i] in before;
      }
    }
  }

  lemma {:induction false} InsertStable<T>(s: seq<T>, x: T, key: T -> int, c: int)
    requires SortedBy(s, key)
    ensures Keyed(Insert(s, x, key), key, c) == Keyed(s, key, c) + if key(x) == c then [x] else []
  {
    if s == [] || key(s[|s| - 1]) <= key(x) {
      KeyedSnoc(s, x, key, c);
    } else {
      var before, last := s[..|s| - 1], s[|s| - 1];
      assert s == before + [last];
      InsertStable(before, x, key, c);
      KeyedSnoc(before, last, key, c);
      KeyedSnoc(Insert(before, x, key), last, key, c);
    }
  }

  /** A sort keeps the elements, orders the keys and does not reorder equal keys. */
  lemma {:induction false} SortFacts<T>(s: seq<T>, key: T -> int)
    ensures |SortBy(s, key)| == |s|
    ensures multiset(SortBy(s, key)) == multiset(s)
    ensures SortedBy(SortBy(s, key), key)
    ensures forall c :: Keyed(SortBy(s, key), key, c) == Keyed(s, key, c)
  {
    if s != [] {
      var before, last := s[..|s| - 1], s[|s| - 1];
      assert s == before + [last];
      SortFacts(before, key);
      InsertPermutes(SortBy(before, key), last, key);
      InsertSorts(SortBy(before, key), last, key);
      forall c ensures Keyed(SortBy(s, key), key, c) == Keyed(s, key, c) {
        InsertStable(SortBy(before, key), last, key, c);
      }
    }
  }

  lemma SortMembers<T>(s: seq<T>, key: T -> int)
    ensures forall x :: x in SortBy(s, key) <==> x in s
  {
    SortFacts(s, key);
    forall x ensures x in SortBy(s, key) <==> x in s {
      assert x in multiset(SortBy(s, key)) <==> x in multiset(s);
    }
  }

  ghost predicate DistinctBy<T, K>(s: seq<T>, key: T -> K) {
    forall i, j :: 0 <= i < j < |s| ==> key(s[i]) != key(s[j])
  }

  lemma TwiceInMultiset<T>(s: seq<T>, i: nat, j: nat)
    requires i < j < |s| && s[i] == s[j]
    ensures multiset(s)[s[i]] >= 2
  {
    assert s == s[..i] + [s[i]] + s[i + 1..j] + [s[j]] + s[j + 1..];
  }

  lemma OnceInMultiset<T, K>(s: seq<T>, i: nat, key: T -> K)
    requires i < |s| && DistinctBy(s, key)
    ensures multiset(s)[s[i]] == 1
  {
    assert s == s[..i] + [s[i]] + s[i + 1..];
    assert s[i] !in s[..i] && s[i] !in s[i + 1..];
  }

  lemma SameIndex<T, K>(s: seq<T>, i: nat, j: nat, key: T -> K)
    requires i < |s| && j < |s| && DistinctBy(s, key) && key(s[i]) == key(s[j])
    ensures i == j
  {
  }

  /** A permutation of elements with distinct keys has distinct keys. */
  lemma DistinctPermute<T, K>(a: seq<T>, b: seq<T>, key: T -> K)
    requires multiset(a) == multiset(b) && DistinctBy(a, key)
    ensures DistinctBy(b, key)
  {
    forall i, j | 0 <= i < j < |b| ensures key(b[i]) != key(b[j]) {
      assert b[i] in multiset(a) && b[j] in multiset(a);
      var x :| 0 <= x < |a| && a[x] == b[i];
      var y :| 0 <= y < |a| && a[y] == b[j];
      if key(b[i]) == key(b[j]) {
        SameIndex(a, x, y, key);
        TwiceInMultiset(b, i, j);
        OnceInMultiset(a, x, key);
      }
    }
  }

  function Self(x: int): int { x }

  lemma LastIsMost(s: seq<int>, x: int)
    requires SortedBy(s, Self) && x in s
    ensures x <= s[|s| - 1]
  {
    var i :| 0 <= i < |s| && s[i] == x;
    if i < |s| - 1 {
      assert Self(s[i]) <= Self(s[|s| - 1]);
    }
  }

  lemma WithoutLast<T>(s: seq<T>)
    requires s != []
    ensures s == s[..|s| - 1] + [s[|s| - 1]]
    ensures multiset(s[..|s| - 1]) == multiset(s) - multiset{s[|s| - 1]}
  {
    assert s == s[..|s| - 1] + [s[|s| - 1]];
  }

  lemma SortedPrefix<T>(s: seq<T>, key: T -> int, n: nat)
    requires SortedBy(s, key) && n <= |s|
    ensures SortedBy(s[..n], key)
  {
  }

  lemma LastsAgree(a: seq<int>, b: seq<int>)
    requires multiset(a) == multiset(b) && SortedBy(a, Self) && SortedBy(b, Self) && a != []
    ensures b != [] && a[|a| - 1] == b[|b| - 1]
  {
    assert a[|a| - 1] in multiset(b);
    assert b[|b| - 1] in multiset(a);
    LastIsMost(a, b[|b| - 1]);
    LastIsMost(b, a[|a| - 1]);
  }

  /** Two sorted sequences of integers with the same elements are equal. */
  lemma {:induction false} SortedUnique(a: seq<int>, b: seq<int>)
    requires multiset(a) == multiset(b)
    requires SortedBy(a, Self) && SortedBy(b, Self)
    ensures a == b
  {
    if a == [] {
      assert |multiset(b)| == |b|;
    } else {
      LastsAgree(a, b);
      WithoutLast(a);
      WithoutLast(b);
      SortedPrefix(a, Self, |a| - 1);
      SortedPrefix(b, Self, |b| - 1);
      SortedUnique(a[..|a| - 1], b[..|b| - 1]);
    }
  }
}

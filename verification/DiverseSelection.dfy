/**
 Two-pass selection: first one item per prefix, then whatever fills the limit.
 `closest_diverse` and `get_diverse` (crates/network/src/dht.rs) both select
 this way from a list of items with distinct ids.
 */
module DiverseSelection {
  import opened Machine
  import opened Sorting

  function Prefixes<T, P>(s: seq<T>, prefix: T -> P): set<P> { set i | 0 <= i < |s| :: prefix(s[i]) }

  predicate Has<T, I(==)>(s: seq<T>, id: T -> I, x: I) { exists i :: 0 <= i < |s| && id(s[i]) == x }

  /** The first pass: the earliest item of every prefix, up to the limit. */
  function Representatives<T, P(==)>(s: seq<T>, limit: nat, prefix: T -> P): seq<T> {
    if s == [] then []
    else
      var before, last := Representatives(s[..|s| - 1], limit, prefix), s[|s| - 1];
      if |before| >= limit || prefix(last) in Prefixes(before, prefix) then before else before + [last]
  }

  /** The second pass: items not chosen yet, up to the limit. */
  function Fill<T, I(==)>(chosen: seq<T>, s: seq<T>, limit: nat, id: T -> I): seq<T> {
    if s == [] then chosen
    else
      var before, last := Fill(chosen, s[..|s| - 1], limit, id), s[|s| - 1];
      if |before| >= limit || Has(before, id, id(last)) then before else before + [last]
  }

  function Diverse<T, I(==), P(==)>(s: seq<T>, limit: nat, id: T -> I, prefix: T -> P): seq<T> {
    Fill(Representatives(s, limit, prefix), s, limit, id)
  }

  method SelectDiverse<T, I(==), P(==)>(s: seq<T>, limit: nat, id: T -> I, prefix: T -> P) returns (selected: seq<T>)
    ensures selected == Diverse(s, limit, id, prefix)
  {
    selected := [];
    var sources := {};
    for i := 0 to |s|
      invariant selected == Representatives(s[..i], limit, prefix)
      invariant sources == Prefixes(selected, prefix)
    {
      assert s[..i + 1][..i] == s[..i];
      if |selected| >= limit {
        FullStays(s, i, limit, prefix);
        break;
      }
      if prefix(s[i]) !in sources {
        PrefixesSnoc(selected, s[i], prefix);
        sources := sources + {prefix(s[i])};
        selected := selected + [s[i]];
      }
    }
    assert s[..|s|] == s;
    ghost var chosen := selected;
    for i := 0 to |s|
      invariant selected == Fill(chosen, s[..i], limit, id)
    {
      assert s[..i + 1][..i] == s[..i];
      if |selected| >= limit {
        FilledStays(chosen, s, i, limit, id);
        break;
      }
      if !Has(selected, id, id(s[i])) {
        selected := selected + [s[i]];
      }
    }
  }

  lemma {:induction false} FullStays<T, P>(s: seq<T>, i: nat, limit: nat, prefix: T -> P)
    requires i <= |s| && |Representatives(s[..i], limit, prefix)| >= limit
    ensures Representatives(s, limit, prefix) == Representatives(s[..i], limit, prefix)
  {
    if i == |s| {
      assert s[..i] == s;
    } else {
      var before := s[..|s| - 1];
      assert before[..i] == s[..i];
      FullStays(before, i, limit, prefix);
    }
  }

  lemma {:induction false} FilledStays<T, I>(chosen: seq<T>, s: seq<T>, i: nat, limit: nat, id: T -> I)
    requires i <= |s| && |Fill(chosen, s[..i], limit, id)| >= limit
    ensures Fill(chosen, s, limit, id) == Fill(chosen, s[..i], limit, id)
  {
    if i == |s| {
      assert s[..i] == s;
    } else {
      var before := s[..|s| - 1];
      assert before[..i] == s[..i];
      FilledStays(chosen, before, i, limit, id);
    }
  }

  lemma PrefixesSnoc<T, P>(s: seq<T>, x: T, prefix: T -> P)
    ensures Prefixes(s + [x], prefix) == Prefixes(s, prefix) + {prefix(x)}
  {
    forall p | p in Prefixes(s, prefix) + {prefix(x)} ensures p in Prefixes(s + [x], prefix) {
      if p in Prefixes(s, prefix) {
        var i :| 0 <= i < |s| && prefix(s[i]) == p;
        assert prefix((s + [x])[i]) == p;
      } else {
        assert prefix((s + [x])[|s|]) == p;
      }
    }
  }

  lemma PrefixesMonotone<T, P>(a: seq<T>, b: seq<T>, prefix: T -> P)
    requires forall x :: x in a ==> x in b
    ensures Prefixes(a, prefix) <= Prefixes(b, prefix)
  {
    forall p | p in Prefixes(a, prefix) ensures p in Prefixes(b, prefix) {
      var i :| 0 <= i < |a| && prefix(a[i]) == p;
      assert a[i] in b;
      var j :| 0 <= j < |b| && b[j] == a[i];
      assert prefix(b[j]) == p;
    }
  }

  lemma {:induction false} PrefixesAtMost<T, P>(s: seq<T>, prefix: T -> P)
    ensures |Prefixes(s, prefix)| <= |s|
  {
    if s == [] {
      assert Prefixes(s, prefix) == {};
    } else {
      PrefixesAtMost(s[..|s| - 1], prefix);
      assert s == s[..|s| - 1] + [s[|s| - 1]];
      PrefixesSnoc(s[..|s| - 1], s[|s| - 1], prefix);
    }
  }

  lemma {:induction false} RepresentativesMembers<T, I, P>(s: seq<T>, limit: nat, prefix: T -> P, id: T -> I)
    ensures forall x :: x in Representatives(s, limit, prefix) ==> x in s
    ensures DistinctBy(s, id) ==> DistinctBy(Representatives(s, limit, prefix), id)
  {
    if s != [] {
      var before, last := s[..|s| - 1], s[|s| - 1];
      assert s == before + [last];
      RepresentativesMembers(before, limit, prefix, id);
      var r := Representatives(before, limit, prefix);
      if DistinctBy(s, id) {
        forall i | 0 <= i < |r| ensures id(r[i]) != id(last) {
          assert r[i] in before;
        }
      }
    }
  }

  lemma {:induction false} RepresentativesFacts<T, P>(s: seq<T>, limit: nat, prefix: T -> P)
    ensures var r := Representatives(s, limit, prefix);
            && |r| <= limit && |Prefixes(r, prefix)| == |r|
            && (|r| < limit ==> Prefixes(r, prefix) == Prefixes(s, prefix))
  {
    if s != [] {
      var before, last := s[..|s| - 1], s[|s| - 1];
      assert s == before + [last];
      RepresentativesFacts(before, limit, prefix);
      PrefixesSnoc(before, last, prefix);
      PrefixesSnoc(Representatives(before, limit, prefix), last, prefix);
    }
  }

  lemma {:induction false} FillFacts<T, I>(chosen: seq<T>, s: seq<T>, limit: nat, id: T -> I)
    requires |chosen| <= limit && DistinctBy(chosen, id)
    ensures var f := Fill(chosen, s, limit, id);
            && chosen <= f && |f| <= limit && DistinctBy(f, id)
            && (forall x :: x in f ==> x in chosen || x in s)
            && (|f| < limit ==> forall i :: 0 <= i < |s| ==> Has(f, id, id(s[i])))
  {
    if s != [] {
      var before, last := s[..|s| - 1], s[|s| - 1];
      FillFacts(chosen, before, limit, id);
      var b, f := Fill(chosen, before, limit, id), Fill(chosen, s, limit, id);
      if |f| < limit {
        forall i | 0 <= i < |s| ensures Has(f, id, id(s[i])) {
          if i < |before| {
            assert Has(b, id, id(before[i]));
            var j :| 0 <= j < |b| && id(b[j]) == id(before[i]);
            assert id(f[j]) == id(s[i]);
          } else if !Has(b, id, id(last)) {
            assert id(f[|b|]) == id(last);
          }
        }
      }
    }
  }

  function Ids<T, I>(s: seq<T>, id: T -> I): set<I> { set i | 0 <= i < |s| :: id(s[i]) }

  lemma {:induction false} IdsCount<T, I>(s: seq<T>, id: T -> I)
    requires DistinctBy(s, id)
    ensures |Ids(s, id)| == |s|
  {
    if s == [] {
      assert Ids(s, id) == {};
    } else {
      var before, last := s[..|s| - 1], s[|s| - 1];
      IdsCount(before, id);
      assert s == before + [last];
      assert Ids(s, id) == Ids(before, id) + {id(last)} by { PrefixesSnoc(before, last, id); }
      assert id(last) !in Ids(before, id);
    }
  }

  lemma FullLength<T, I>(s: seq<T>, limit: nat, id: T -> I, f: seq<T>)
    requires DistinctBy(s, id) && DistinctBy(f, id) && |f| <= limit && forall x :: x in f ==> x in s
    requires |f| < limit ==> forall i :: 0 <= i < |s| ==> Has(f, id, id(s[i]))
    ensures |f| == Min(limit, |s|)
  {
    IdsCount(s, id);
    IdsCount(f, id);
    assert Ids(f, id) <= Ids(s, id) by { PrefixesMonotone(f, s, id); }
    SubsetSize(Ids(f, id), Ids(s, id));
    if |f| < limit {
      assert Ids(s, id) <= Ids(f, id);
      SubsetSize(Ids(s, id), Ids(f, id));
    }
  }

  /**
   The selection has min(limit, available) distinct items of the list, starts
   with one item per prefix, and shows min(limit, prefixes available) prefixes.
   */
  lemma DiverseFacts<T, I, P>(s: seq<T>, limit: nat, id: T -> I, prefix: T -> P)
    requires DistinctBy(s, id)
    ensures var f := Diverse(s, limit, id, prefix);
            && |f| == Min(limit, |s|)
            && DistinctBy(f, id)
            && (forall x :: x in f ==> x in s)
            && |Prefixes(f, prefix)| == Min(limit, |Prefixes(s, prefix)|)
            && Representatives(s, limit, prefix) <= f
  {
    var r, f := Representatives(s, limit, prefix), Diverse(s, limit, id, prefix);
    RepresentativesFacts(s, limit, prefix);
    RepresentativesMembers(s, limit, prefix, id);
    FillFacts(r, s, limit, id);
    FullLength(s, limit, id, f);
    PrefixesMonotone(r, f, prefix);
    PrefixesMonotone(f, s, prefix);
    PrefixesAtMost(f, prefix);
    SubsetSize(Prefixes(r, prefix), Prefixes(f, prefix));
    SubsetSize(Prefixes(f, prefix), Prefixes(s, prefix));
  }

  /** No other choice of at most `limit` items of the list shows more prefixes. */
  lemma NoChoiceIsMoreDiverse<T, I, P>(s: seq<T>, limit: nat, id: T -> I, prefix: T -> P, other: seq<T>)
    requires DistinctBy(s, id) && |other| <= limit && forall x :: x in other ==> x in s
    ensures |Prefixes(other, prefix)| <= |Prefixes(Diverse(s, limit, id, prefix), prefix)|
  {
    DiverseFacts(s, limit, id, prefix);
    PrefixesMonotone(other, s, prefix);
    PrefixesAtMost(other, prefix);
    SubsetSize(Prefixes(other, prefix), Prefixes(s, prefix));
  }

  /**
   The first pass takes exactly the items that are the first of their prefix, as
   long as fewer prefixes than the limit come before them.
   */
  lemma {:induction false} RepresentativeIff<T, I, P>(s: seq<T>, limit: nat, prefix: T -> P, id: T -> I, i: nat)
    requires DistinctBy(s, id) && i < |s|
    ensures s[i] in Representatives(s, limit, prefix)
            <==> prefix(s[i]) !in Prefixes(s[..i], prefix) && |Prefixes(s[..i], prefix)| < limit
  {
    var before, last := s[..|s| - 1], s[|s| - 1];
    var r := Representatives(before, limit, prefix);
    RepresentativesMembers(before, limit, prefix, id);
    if i < |before| {
      assert id(s[i]) != id(last);
      assert before[..i] == s[..i] && before[i] == s[i];
      RepresentativeIff(before, limit, prefix, id, i);
    } else {
      assert s[..i] == before;
      NotYet(s, id, r);
      RepresentativesFacts(before, limit, prefix);
      PrefixesMonotone(r, before, prefix);
      SubsetSize(Prefixes(r, prefix), Prefixes(before, prefix));
    }
  }

  lemma NotYet<T, I>(s: seq<T>, id: T -> I, r: seq<T>)
    requires s != [] && DistinctBy(s, id) && forall x :: x in r ==> x in s[..|s| - 1]
    ensures s[|s| - 1] !in r
  {
    var last := s[|s| - 1];
    forall x | x in r ensures x != last {
      var j :| 0 <= j < |s| - 1 && s[..|s| - 1][j] == x;
      assert id(s[j]) != id(last);
    }
  }

  /** The second pass skips nothing: before an item it takes, everything of the list is selected. */
  lemma {:induction false} FillInOrder<T, I>(chosen: seq<T>, s: seq<T>, limit: nat, id: T -> I, i: nat, j: nat)
    requires i < j < |s| && DistinctBy(s, id)
    requires s[j] in Fill(chosen, s, limit, id) && s[j] !in chosen
    ensures Has(Fill(chosen, s, limit, id), id, id(s[i]))
  {
    var before, last := s[..|s| - 1], s[|s| - 1];
    var b, f := Fill(chosen, before, limit, id), Fill(chosen, s, limit, id);
    if j < |before| {
      assert id(s[j]) != id(last);
      assert before[i] == s[i] && before[j] == s[j];
      FillInOrder(chosen, before, limit, id, i, j);
      HasStays(b, f, id, id(s[i]));
    } else {
      FillMembers(chosen, before, limit, id);
      NotThere(chosen, s, id, b);
      FillTakesAll(chosen, before, limit, id, i);
      HasStays(b, f, id, id(s[i]));
    }
  }

  lemma HasStays<T, I>(b: seq<T>, f: seq<T>, id: T -> I, x: I)
    requires b <= f && Has(b, id, x)
    ensures Has(f, id, x)
  {
    var i :| 0 <= i < |b| && id(b[i]) == x;
    assert id(f[i]) == x;
  }

  lemma {:induction false} FillMembers<T, I>(chosen: seq<T>, s: seq<T>, limit: nat, id: T -> I)
    ensures chosen <= Fill(chosen, s, limit, id)
    ensures forall x :: x in Fill(chosen, s, limit, id) ==> x in chosen || x in s
  {
    if s != [] {
      FillMembers(chosen, s[..|s| - 1], limit, id);
    }
  }

  lemma NotThere<T, I>(chosen: seq<T>, s: seq<T>, id: T -> I, b: seq<T>)
    requires s != [] && DistinctBy(s, id) && s[|s| - 1] !in chosen
    requires forall x :: x in b ==> x in chosen || x in s[..|s| - 1]
    ensures s[|s| - 1] !in b
  {
    var last := s[|s| - 1];
    forall x | x in b ensures x != last {
      if x !in chosen {
        var j :| 0 <= j < |s| - 1 && s[..|s| - 1][j] == x;
        assert id(s[j]) != id(last);
      }
    }
  }

  lemma {:induction false} FillTakesAll<T, I>(chosen: seq<T>, s: seq<T>, limit: nat, id: T -> I, i: nat)
    requires i < |s| && |Fill(chosen, s, limit, id)| < limit
    ensures Has(Fill(chosen, s, limit, id), id, id(s[i]))
  {
    var before, last := s[..|s| - 1], s[|s| - 1];
    var b, f := Fill(chosen, before, limit, id), Fill(chosen, s, limit, id);
    FillMembers(chosen, before, limit, id);
    if i < |before| {
      FillTakesAll(chosen, before, limit, id, i);
      assert before[i] == s[i];
      HasStays(b, f, id, id(s[i]));
    } else if !Has(b, id, id(last)) {
      assert id(f[|b|]) == id(last);
    }
  }
}

/** What `put` answers and what it does to the list of the record's key. */
module DhtStoreEffects {
  import opened Machine
  import opened Sorting
  import opened DhtStore

  /** `a` goes before `b`: it has the lower sequence, or the same one and expires no later. */
  ghost predicate GoesFirst(a: Record, b: Record) {
    a.sequence < b.sequence || (a.sequence == b.sequence && a.expiresAt <= b.expiresAt)
  }

  lemma RankOrders(a: Record, b: Record)
    ensures Rank(a) <= Rank(b) <==> GoesFirst(a, b)
  {
  }

  /** Something at least as new from the same owner is there. */
  ghost predicate Outdated(values: seq<Record>, r: Record) {
    exists i :: 0 <= i < |values| && values[i].owner == r.owner && values[i].sequence >= r.sequence
  }

  /** The key is full of other owners' records and none of them has a lower sequence. */
  ghost predicate Crowded(values: seq<Record>, r: Record, perKey: nat) {
    |values| >= perKey && forall i :: 0 <= i < |values| ==>
                            values[i].owner != r.owner && values[i].sequence >= r.sequence
  }

  lemma FileRefusesIff(values: seq<Record>, r: Record, perKey: nat)
    requires perKey >= 1 && OneEach(values)
    ensures File(values, r, perKey).Refused? <==> Outdated(values, r) || Crowded(values, r, perKey)
  {
    var existing := IndexOfOwner(values, r.owner);
    if existing.Some? {
      OwnerOnce(values, existing.value, r.owner);
    } else if |values| >= perKey {
      FirstOfSorted(values, r.sequence);
    }
  }

  lemma OwnerOnce(values: seq<Record>, i: nat, owner: Owner)
    requires OneEach(values) && i < |values| && values[i].owner == owner
    ensures forall j :: 0 <= j < |values| && values[j].owner == owner ==> j == i
  {
    forall j | 0 <= j < |values| && values[j].owner == owner ensures j == i {
      assert OwnerOf(values[i]) == OwnerOf(values[j]);
    }
  }

  lemma FirstOfSorted(values: seq<Record>, sequence: u64)
    requires values != []
    ensures |SortBy(values, Rank)| == |values|
    ensures SortBy(values, Rank)[0].sequence >= sequence
            <==> forall i :: 0 <= i < |values| ==> values[i].sequence >= sequence
  {
    LowestFirst(values);
    var first := SortBy(values, Rank)[0];
    var i :| 0 <= i < |values| && values[i] == first;
    forall j | 0 <= j < |values| ensures first.sequence <= values[j].sequence {
      assert GoesFirst(first, values[j]);
    }
  }

  lemma LowestFirst(values: seq<Record>)
    requires values != []
    ensures |SortBy(values, Rank)| == |values|
    ensures SortBy(values, Rank)[0] in values
    ensures forall x :: x in values ==> GoesFirst(SortBy(values, Rank)[0], x)
  {
    var sorted := SortBy(values, Rank);
    SortFacts(values, Rank);
    SortMembers(values, Rank);
    assert sorted[0] in sorted;
    forall x | x in values ensures GoesFirst(sorted[0], x) {
      assert x in sorted;
      var j :| 0 <= j < |sorted| && sorted[j] == x;
      assert Rank(sorted[0]) <= Rank(sorted[j]);
      RankOrders(sorted[0], x);
    }
  }

  /**
   `put` answers false exactly for a record that has expired, one not above the
   sequence its owner has stored under the key, and one for a full key whose
   records all have at least its sequence.
   */
  lemma PutAnswerIff(limits: Limits, records: Records, r: Record, now: u64)
    requires ValidLimits(limits) && SlotsGood(limits, records)
    ensures var values := Values(records, r.key);
            !Put(limits, records, r, now).1
            <==> r.expiresAt < now || Outdated(values, r) || Crowded(values, r, limits.perKey)
  {
    FileRefusesIff(Values(records, r.key), r, limits.perKey);
  }

  /** The records of a key after a record was filed there. */
  ghost predicate FiledAs(values: seq<Record>, r: Record, perKey: nat, next: seq<Record>) {
    if exists x :: x in values && x.owner == r.owner then
      forall x :: x in next <==> x == r || (x in values && x.owner != r.owner)
    else if |values| < perKey then next == values + [r]
    else exists gone: Record :: gone.sequence < r.sequence && Displaces(values, r, gone, next)
  }

  /** `r` takes the place of the record that goes first. */
  ghost predicate Displaces(values: seq<Record>, r: Record, gone: Record, next: seq<Record>) {
    && gone in values && (forall x :: x in values ==> GoesFirst(gone, x))
    && (forall x :: x in next <==> x == r || (x in values && x != gone))
  }

  /** A refused record changes no record of its key; another replaces its owner's, joins, or displaces the lowest. */
  lemma FileEffect(values: seq<Record>, r: Record, perKey: nat)
    requires perKey >= 1 && OneEach(values)
    ensures var filed := File(values, r, perKey);
            && (filed.Refused? ==> multiset(filed.values) == multiset(values))
            && (!filed.Refused? ==> FiledAs(values, r, perKey, filed.values))
  {
    var existing := IndexOfOwner(values, r.owner);
    if existing.Some? {
      OwnerReplaced(values, existing.value, r);
    } else if |values| < perKey {
      assert forall x :: x in values ==> x.owner != r.owner;
    } else {
      FullEffect(values, r, perKey);
    }
  }

  lemma FullEffect(values: seq<Record>, r: Record, perKey: nat)
    requires perKey >= 1 && OneEach(values) && IndexOfOwner(values, r.owner).None? && |values| >= perKey
    ensures var filed := File(values, r, perKey);
            && (filed.Refused? ==> multiset(filed.values) == multiset(values))
            && (!filed.Refused? ==> FiledAs(values, r, perKey, filed.values))
  {
    SortFacts(values, Rank);
    LowestDisplaced(values, r);
    assert forall x :: x in values ==> x.owner != r.owner;
  }

  lemma OwnerReplaced(values: seq<Record>, i: nat, r: Record)
    requires OneEach(values) && i < |values| && values[i].owner == r.owner
    ensures values[i] in values
    ensures forall x :: x in values[i := r] <==> x == r || (x in values && x.owner != r.owner)
  {
    var next := values[i := r];
    OwnerOnce(values, i, r.owner);
    assert next[i] == r;
    forall x | x in values && x.owner != r.owner ensures x in next {
      var j :| 0 <= j < |values| && values[j] == x;
      assert next[j] == x;
    }
  }

  lemma LowestDisplaced(values: seq<Record>, r: Record)
    requires OneEach(values) && values != []
    ensures |SortBy(values, Rank)| == |values|
    ensures var sorted := SortBy(values, Rank);
            Displaces(values, r, sorted[0], sorted[1..] + [r])
  {
    var sorted := SortBy(values, Rank);
    SortFacts(values, Rank);
    SortMembers(values, Rank);
    LowestFirst(values);
    DistinctPermute(values, sorted, OwnerOf);
    assert forall i :: 0 < i < |sorted| ==> OwnerOf(sorted[i]) != OwnerOf(sorted[0]);
    assert sorted == [sorted[0]] + sorted[1..];
    assert forall x :: x in sorted[1..] <==> x in sorted && x != sorted[0];
  }

  /** Reading a key drops its expired records and touches no other key. */
  lemma GetEffect(records: Records, k: Key, now: u64, l: Key, r: Record)
    ensures Holds(AfterGet(records, k, now), l, r) <==> Holds(records, l, r) && (l == k ==> r.expiresAt >= now)
  {
    if k in records {
      LiveFacts(records[k], now);
    }
  }
}

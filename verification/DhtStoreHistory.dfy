/**
 What the record store keeps and what it drops: the order of eviction, when a
 record that was reported as stored is already gone, and how the bounded list of
 a key relates to everything ever put under it.
 */
module DhtStoreHistory {
  import opened Machine
  import opened Sorting
  import opened DhtStore

  // ----- eviction

  lemma RemoveHolds(values: seq<Record>, i: nat, r: Record)
    requires i < |values| && OneEach(values)
    ensures r in Remove(values, i) <==> r in values && r != values[i]
  {
    if r in values && r != values[i] {
      var j :| 0 <= j < |values| && values[j] == r;
      assert if j < i then values[..i][j] == r else values[i + 1..][j - i - 1] == r;
    }
  }

  /** One pass removes the lowest-ranked record and nothing else. */
  lemma EvictOneHolds(limits: Limits, records: Records, k: Key, r: Record)
    requires SlotsGood(limits, records) && Places(records) != {}
    ensures var worst := RecordAt(records, Worst(records));
            && (Holds(EvictOne(records), k, r) <==> Holds(records, k, r) && !(k == Worst(records).key && r == worst))
            && (Holds(records, k, r) ==> Rank(worst) <= Rank(r))
  {
    var p := Worst(records);
    PlacesIff(records, p);
    RemoveHolds(records[p.key], p.index, r);
    if Holds(records, k, r) {
      var i :| 0 <= i < |records[k]| && records[k][i] == r;
      PlacesIff(records, Place(k, i));
      assert Place(k, i) == p || Ahead(records, p, Place(k, i));
    }
  }

  /** Every record the bound drops ranks no higher than every record it keeps. */
  lemma {:induction false} EvictedRankLowest(
    limits: Limits, records: Records, max: nat, k: Key, gone: Record, j: Key, kept: Record)
    requires SlotsGood(limits, records)
    requires Holds(Enforce(records, max), j, kept)
    ensures Holds(records, j, kept)
    ensures Holds(records, k, gone) && !Holds(Enforce(records, max), k, gone) ==> Rank(gone) <= Rank(kept)
    decreases Total(records)
  {
    if Total(records) > max {
      if Places(records) == {} {
        PlacesEmpty(records);
      }
      EvictsOne(records);
      EvictGood(limits, records);
      EvictedRankLowest(limits, EvictOne(records), max, k, gone, j, kept);
      EvictOneHolds(limits, records, j, kept);
      EvictOneHolds(limits, records, k, gone);
    }
  }

  // ----- a record reported as stored may be gone

  /** The store right after the push, before the total bound is enforced. */
  function AfterPush(limits: Limits, records: Records, r: Record, now: u64): Records
    requires ValidLimits(limits)
  {
    Expire(records[r.key := File(Values(records, r.key), r, limits.perKey).values], now)
  }

  ghost predicate Undercuts(records: Records, r: Record) {
    forall k, s :: Holds(records, k, s) && s != r ==> Rank(r) < Rank(s) || (Rank(r) == Rank(s) && r.key < k)
  }

  ghost predicate EndsWith(records: Records, k: Key, r: Record) {
    k in records && records[k] != [] && records[k][|records[k]| - 1] == r
  }

  lemma PushedLast(limits: Limits, records: Records, r: Record, now: u64)
    requires ValidLimits(limits) && StoreGood(limits, records) && r.expiresAt >= now
    requires File(Values(records, r.key), r, limits.perKey).Pushed?
    ensures var after := AfterPush(limits, records, r, now);
            && SlotsGood(limits, after) && Total(after) <= limits.maxRecords + 1
            && EndsWith(after, r.key, r)
  {
    PushedFits(limits, records, r, now);
    PushedStays(limits, records, r, now);
  }

  lemma PushedFits(limits: Limits, records: Records, r: Record, now: u64)
    requires ValidLimits(limits) && StoreGood(limits, records)
    requires File(Values(records, r.key), r, limits.perKey).Pushed?
    ensures var after := AfterPush(limits, records, r, now);
            SlotsGood(limits, after) && Total(after) <= limits.maxRecords + 1
  {
    var values := File(Values(records, r.key), r, limits.perKey).values;
    FileGood(limits, r.key, Values(records, r.key), r);
    TotalNow(records, r.key);
    TotalWith(records, r.key, values);
    ExpireGood(limits, records[r.key := values], now);
  }

  lemma PushedStays(limits: Limits, records: Records, r: Record, now: u64)
    requires ValidLimits(limits) && r.expiresAt >= now
    requires File(Values(records, r.key), r, limits.perKey).Pushed?
    ensures EndsWith(AfterPush(limits, records, r, now), r.key, r)
  {
    PushedAtEnd(Values(records, r.key), r, limits.perKey);
    LastLives(records, r.key, File(Values(records, r.key), r, limits.perKey).values, now);
  }

  lemma PushedAtEnd(values: seq<Record>, r: Record, perKey: nat)
    requires perKey >= 1 && File(values, r, perKey).Pushed?
    ensures var s := File(values, r, perKey).values;
            s != [] && s[|s| - 1] == r
  {
  }

  /** A live record at the end of a list stays there when the store expires. */
  lemma LastLives(records: Records, k: Key, values: seq<Record>, now: u64)
    requires values != [] && values[|values| - 1].expiresAt >= now
    ensures EndsWith(Expire(records[k := values], now), k, values[|values| - 1])
  {
    assert records[k := values][k] == values;
  }

  lemma WorstIsUndercut(limits: Limits, records: Records, r: Record)
    requires SlotsGood(limits, records) && r.key in records && records[r.key] != []
    requires records[r.key][|records[r.key]| - 1] == r
    ensures Places(records) != {}
    ensures Worst(records) == Place(r.key, |records[r.key]| - 1) <==> Undercuts(records, r)
  {
    var here := Place(r.key, |records[r.key]| - 1);
    PlacesIff(records, here);
    var p := Worst(records);
    PlacesIff(records, p);
    if p == here {
      forall k, s | Holds(records, k, s) && s != r ensures Rank(r) < Rank(s) || (Rank(r) == Rank(s) && r.key < k) {
        var i :| 0 <= i < |records[k]| && records[k][i] == s;
        PlacesIff(records, Place(k, i));
        assert Ahead(records, here, Place(k, i));
      }
    } else {
      var s := RecordAt(records, p);
      assert Holds(records, p.key, s) && Ahead(records, p, here);
    }
  }

  lemma OneOver(limits: Limits, records: Records, max: nat, k: Key, r: Record)
    requires SlotsGood(limits, records) && Total(records) == max + 1 && Places(records) != {}
    ensures Holds(Enforce(records, max), k, r)
            <==> Holds(records, k, r) && !(k == Worst(records).key && r == RecordAt(records, Worst(records)))
  {
    EvictsOne(records);
    assert Enforce(records, max) == EvictOne(records);
    EvictOneHolds(limits, records, k, r);
  }

  lemma LastPlaceOnly(limits: Limits, records: Records, r: Record, p: Place)
    requires SlotsGood(limits, records) && r.key in records && records[r.key] != [] && p in Places(records)
    requires records[r.key][|records[r.key]| - 1] == r
    ensures p.key == r.key && RecordAt(records, p) == r <==> p == Place(r.key, |records[r.key]| - 1)
  {
    PlacesIff(records, p);
  }

  /**
   `put` reports a new record as stored even when the total bound drops it at
   once. That happens exactly when the live records exceed the bound and the new
   one ranks below all others, ties going to the lower key.
   */
  lemma PushedButDroppedIff(limits: Limits, records: Records, r: Record, now: u64)
    requires ValidLimits(limits) && StoreGood(limits, records) && r.expiresAt >= now
    requires File(Values(records, r.key), r, limits.perKey).Pushed?
    ensures Put(limits, records, r, now).1
    ensures var after := AfterPush(limits, records, r, now);
            !Holds(Put(limits, records, r, now).0, r.key, r)
            <==> Total(after) > limits.maxRecords && Undercuts(after, r)
  {
    PushedLast(limits, records, r, now);
    PushIsEnforced(limits, records, r, now);
    DroppedIff(limits, AfterPush(limits, records, r, now), r);
  }

  lemma PushIsEnforced(limits: Limits, records: Records, r: Record, now: u64)
    requires ValidLimits(limits) && r.expiresAt >= now
    requires File(Values(records, r.key), r, limits.perKey).Pushed?
    ensures Put(limits, records, r, now) == (Enforce(AfterPush(limits, records, r, now), limits.maxRecords), true)
  {
  }

  lemma DroppedIff(limits: Limits, after: Records, r: Record)
    requires SlotsGood(limits, after) && Total(after) <= limits.maxRecords + 1
    requires EndsWith(after, r.key, r)
    ensures !Holds(Enforce(after, limits.maxRecords), r.key, r)
            <==> Total(after) > limits.maxRecords && Undercuts(after, r)
  {
    WorstIsUndercut(limits, after, r);
    if Total(after) > limits.maxRecords {
      OneOver(limits, after, limits.maxRecords, r.key, r);
      LastPlaceOnly(limits, after, r, Worst(after));
    }
  }

  // ----- the list of a key against everything put under it

  /** The highest sequence seen from every owner. */
  function Best(puts: seq<Record>): map<Owner, u64> {
    if puts == [] then map[]
    else Better(Best(puts[..|puts| - 1]), puts[|puts| - 1])
  }

  function Better(best: map<Owner, u64>, r: Record): map<Owner, u64> {
    best[r.owner := if r.owner in best then Max(best[r.owner], r.sequence) else r.sequence]
  }

  /** The bounded list after the same puts. */
  function Kept(puts: seq<Record>, perKey: nat): seq<Record>
    requires perKey >= 1
  {
    if puts == [] then [] else File(Kept(puts[..|puts| - 1], perKey), puts[|puts| - 1], perKey).values
  }

  ghost predicate Stored(values: seq<Record>, owner: Owner) {
    exists i :: 0 <= i < |values| && values[i].owner == owner
  }

  /** `values` is a selection of the `perKey` highest entries of `best`. */
  ghost predicate TopOf(values: seq<Record>, best: map<Owner, u64>, perKey: nat) {
    && OneEach(values)
    && |values| == Min(perKey, |best|)
    && (forall i :: 0 <= i < |values| ==> values[i].owner in best && values[i].sequence == best[values[i].owner])
    && (forall o, i :: o in best && !Stored(values, o) && 0 <= i < |values| ==> best[o] <= values[i].sequence)
  }

  function Owners(values: seq<Record>): set<Owner> { set r | r in values :: r.owner }

  lemma {:induction false} OwnersCount(values: seq<Record>)
    requires OneEach(values)
    ensures |Owners(values)| == |values|
  {
    if values == [] {
      assert Owners(values) == {};
    } else {
      var before, last := values[..|values| - 1], values[|values| - 1];
      OwnersCount(before);
      assert values == before + [last];
      assert Owners(values) == Owners(before) + {last.owner};
      assert last.owner !in Owners(before);
    }
  }

  /** For one: a store with room for one record that already holds a newer one under another key. */
  lemma PutIntoFullStore(limits: Limits, r: Record, newer: Record, now: u64)
    requires limits.maxRecords == 1 && limits.perKey >= 1 && r.key != newer.key
    requires r.sequence < newer.sequence && r.expiresAt >= now && newer.expiresAt >= now
    ensures var (after, stored) := Put(limits, map[newer.key := [newer]], r, now);
            stored && !Holds(after, r.key, r) && StoreGood(limits, map[newer.key := [newer]])
  {
    var records: Records := map[newer.key := [newer]];
    OneRecord(limits, newer);
    FileFirst(r, limits.perKey);
    BothAfterPush(limits, r, newer, now);
    TotalOfTwo(limits, r, newer);
    UndercutByNewer(r, newer);
    PushedButDroppedIff(limits, records, r, now);
  }

  function Both(r: Record, newer: Record): Records { map[newer.key := [newer], r.key := [r]] }

  lemma BothAfterPush(limits: Limits, r: Record, newer: Record, now: u64)
    requires ValidLimits(limits) && r.key != newer.key && r.expiresAt >= now && newer.expiresAt >= now
    ensures AfterPush(limits, map[newer.key := [newer]], r, now) == Both(r, newer)
  {
    FileFirst(r, limits.perKey);
    LiveOne(r, now);
    LiveOne(newer, now);
    assert map[newer.key := [newer]][r.key := [r]] == Both(r, newer);
    assert Expire(Both(r, newer), now) == Both(r, newer);
  }

  lemma TotalOfTwo(limits: Limits, r: Record, newer: Record)
    requires ValidLimits(limits) && r.key != newer.key
    ensures Total(Both(r, newer)) == 2
  {
    var records: Records := map[newer.key := [newer]];
    OneRecord(limits, newer);
    TotalWith(records, r.key, [r]);
    assert records[r.key := [r]] == Both(r, newer) && records - {r.key} == records;
  }

  lemma UndercutByNewer(r: Record, newer: Record)
    requires r.sequence < newer.sequence && r.key != newer.key
    ensures Undercuts(Both(r, newer), r)
  {
    RankFollowsSequence(r, newer);
    forall k, s | Holds(Both(r, newer), k, s) && s != r ensures s == newer {
      assert k == newer.key || k == r.key;
    }
  }

  lemma OneRecord(limits: Limits, r: Record)
    requires limits.maxRecords >= 1 && limits.perKey >= 1
    ensures StoreGood(limits, map[r.key := [r]]) && Total(map[r.key := [r]]) == 1
  {
    var none: Records := map[];
    TotalWith(none, r.key, [r]);
    assert none - {r.key} == none && none[r.key := [r]] == map[r.key := [r]];
  }

  lemma FileFirst(r: Record, perKey: nat)
    requires perKey >= 1
    ensures File([], r, perKey) == Pushed([r])
  {
  }

  lemma LiveOne(r: Record, now: u64)
    requires r.expiresAt >= now
    ensures LiveOnly([r], now) == [r]
  {
    var one := [r];
    assert one[..0] == [];
  }

  lemma RankFollowsSequence(a: Record, b: Record)
    requires a.sequence < b.sequence
    ensures Rank(a) < Rank(b)
  {
    MulLe(a.sequence + 1, b.sequence, U64_MAX + 1);
  }

  /** While there is room, every owner seen is stored. */
  lemma RoomMeansAllStored(values: seq<Record>, best: map<Owner, u64>, perKey: nat, o: Owner)
    requires TopOf(values, best, perKey) && |values| < perKey && o in best
    ensures Stored(values, o)
  {
    OwnersCount(values);
    assert Owners(values) <= best.Keys;
    if o !in Owners(values) {
      assert Owners(values) <= best.Keys - {o};
      SubsetSize(Owners(values), best.Keys - {o});
    }
  }

  lemma BetterSize(best: map<Owner, u64>, r: Record)
    ensures |Better(best, r)| == if r.owner in best then |best| else |best| + 1
  {
    assert Better(best, r).Keys == best.Keys + {r.owner};
  }

  lemma FileKnown(values: seq<Record>, best: map<Owner, u64>, r: Record, perKey: nat)
    requires perKey >= 1 && TopOf(values, best, perKey) && IndexOfOwner(values, r.owner).Some?
    ensures TopOf(File(values, r, perKey).values, Better(best, r), perKey)
  {
    BetterSize(best, r);
    var e := IndexOfOwner(values, r.owner).value;
    var next := File(values, r, perKey).values;
    forall o | o in Better(best, r) ensures Stored(next, o) <==> Stored(values, o) {
      if Stored(values, o) {
        var i :| 0 <= i < |values| && values[i].owner == o;
        assert next[i].owner == o;
      }
    }
  }

  lemma FileWithRoom(values: seq<Record>, best: map<Owner, u64>, r: Record, perKey: nat)
    requires perKey >= 1 && TopOf(values, best, perKey) && IndexOfOwner(values, r.owner).None? && |values| < perKey
    ensures TopOf(File(values, r, perKey).values, Better(best, r), perKey)
  {
    BetterSize(best, r);
    if r.owner in best {
      RoomMeansAllStored(values, best, perKey, r.owner);
    }
    var next := values + [r];
    forall o | o in Better(best, r) ensures Stored(next, o) {
      if o == r.owner {
        assert next[|values|].owner == o;
      } else {
        RoomMeansAllStored(values, best, perKey, o);
        var i :| 0 <= i < |values| && values[i].owner == o;
        assert next[i].owner == o;
      }
    }
  }

  lemma SameStored(a: seq<Record>, b: seq<Record>, o: Owner)
    requires forall r :: r in a ==> r in b
    ensures Stored(a, o) ==> Stored(b, o)
  {
    if Stored(a, o) {
      var i :| 0 <= i < |a| && a[i].owner == o;
      assert a[i] in b;
    }
  }

  /** Sorting the list changes nothing about the selection, and puts a lowest sequence first. */
  lemma SortedTop(values: seq<Record>, best: map<Owner, u64>, perKey: nat)
    requires TopOf(values, best, perKey)
    ensures TopOf(SortBy(values, Rank), best, perKey)
    ensures forall o :: Stored(SortBy(values, Rank), o) <==> Stored(values, o)
    ensures var sorted := SortBy(values, Rank);
            forall i :: 0 <= i < |sorted| ==> sorted[0].sequence <= sorted[i].sequence
  {
    var sorted := SortBy(values, Rank);
    SortFacts(values, Rank);
    SortMembers(values, Rank);
    DistinctPermute(values, sorted, OwnerOf);
    forall o ensures Stored(sorted, o) <==> Stored(values, o) {
      SameStored(values, sorted, o);
      SameStored(sorted, values, o);
    }
    forall i | 0 <= i < |sorted|
      ensures sorted[i].owner in best && sorted[i].sequence == best[sorted[i].owner]
      ensures sorted[0].sequence <= sorted[i].sequence
    {
      assert sorted[i] in values;
      if i > 0 {
        assert Rank(sorted[0]) <= Rank(sorted[i]);
      }
    }
    forall o, i | o in best && !Stored(sorted, o) && 0 <= i < |sorted| ensures best[o] <= sorted[i].sequence {
      assert sorted[i] in values;
    }
  }

  lemma FileFull(sorted: seq<Record>, best: map<Owner, u64>, r: Record, perKey: nat)
    requires perKey >= 1 && TopOf(sorted, best, perKey) && |sorted| == perKey && !Stored(sorted, r.owner)
    requires forall i :: 0 <= i < |sorted| ==> sorted[0].sequence <= sorted[i].sequence
    ensures sorted[0].sequence >= r.sequence ==> TopOf(sorted, Better(best, r), perKey)
    ensures sorted[0].sequence < r.sequence ==> TopOf(sorted[1..] + [r], Better(best, r), perKey)
  {
    BetterSize(best, r);
    if sorted[0].sequence < r.sequence {
      var next := sorted[1..] + [r];
      assert next[|next| - 1].owner == r.owner;
      forall o | Stored(sorted, o) && o != sorted[0].owner ensures Stored(next, o) {
        var i :| 0 <= i < |sorted| && sorted[i].owner == o;
        assert next[i - 1].owner == o;
      }
    }
  }

  lemma FileTop(values: seq<Record>, best: map<Owner, u64>, r: Record, perKey: nat)
    requires perKey >= 1 && TopOf(values, best, perKey)
    ensures TopOf(File(values, r, perKey).values, Better(best, r), perKey)
  {
    if IndexOfOwner(values, r.owner).Some? {
      FileKnown(values, best, r, perKey);
    } else if |values| < perKey {
      FileWithRoom(values, best, r, perKey);
    } else {
      SortedTop(values, best, perKey);
      SortFacts(values, Rank);
      assert !Stored(values, r.owner);
      FileFull(SortBy(values, Rank), best, r, perKey);
    }
  }

  /**
   However owners repeat and return, the bounded list of a key is exactly a
   selection of the highest entries of the unbounded map from owners to their
   best sequence.
   */
  lemma {:induction false} KeptIsTop(puts: seq<Record>, perKey: nat)
    requires perKey >= 1
    ensures TopOf(Kept(puts, perKey), Best(puts), perKey)
  {
    if puts != [] {
      var before, last := puts[..|puts| - 1], puts[|puts| - 1];
      KeptIsTop(before, perKey);
      FileTop(Kept(before, perKey), Best(before), last, perKey);
    } else {
      assert |Best(puts)| == 0;
    }
  }

  lemma FiledMembers(values: seq<Record>, r: Record, perKey: nat, x: Record)
    requires perKey >= 1 && x in File(values, r, perKey).values
    ensures x == r || x in values
  {
    SortMembers(values, Rank);
  }

  /** Every kept record was put. */
  lemma {:induction false} KeptWasPut(puts: seq<Record>, perKey: nat, x: Record)
    requires perKey >= 1 && x in Kept(puts, perKey)
    ensures x in puts
  {
    var before, last := puts[..|puts| - 1], puts[|puts| - 1];
    FiledMembers(Kept(before, perKey), last, perKey, x);
    if x != last {
      KeptWasPut(before, perKey, x);
    }
  }

  // ----- lifted to the store

  /** The records a history put under `k`. */
  function PutsAt(ops: seq<Op>, k: Key): seq<Record> {
    if ops == [] then []
    else
      var last := ops[|ops| - 1];
      PutsAt(ops[..|ops| - 1], k) + if last.PutOp? && last.record.key == k then [last.record] else []
  }

  /** Nothing put expires at any time the history mentions. */
  ghost predicate NothingExpires(ops: seq<Op>) {
    forall i, j :: 0 <= i < |ops| && 0 <= j < |ops| && ops[i].PutOp? ==> ops[i].record.expiresAt >= ops[j].now
  }

  /** The bound is never exceeded, not even right after a push. */
  ghost predicate RoomThroughout(limits: Limits, ops: seq<Op>)
    requires ValidLimits(limits)
  {
    ops == []
    || var before, last := ops[..|ops| - 1], ops[|ops| - 1];
       && RoomThroughout(limits, before)
       && (last.PutOp? ==>
             Total(AfterPush(limits, Run(limits, before), last.record, last.now)) <= limits.maxRecords)
  }

  ghost predicate AllLive(records: Records, now: u64) {
    forall k, i :: k in records && 0 <= i < |records[k]| ==> records[k][i].expiresAt >= now
  }

  lemma {:induction false} LiveIsAll(values: seq<Record>, now: u64)
    requires forall i :: 0 <= i < |values| ==> values[i].expiresAt >= now
    ensures LiveOnly(values, now) == values
  {
    if values != [] {
      LiveIsAll(values[..|values| - 1], now);
      assert values == values[..|values| - 1] + [values[|values| - 1]];
    }
  }

  lemma ExpireNothing(records: Records, now: u64, k: Key)
    requires AllLive(records, now)
    ensures Values(Expire(records, now), k) == Values(records, k)
  {
    if k in records {
      LiveIsAll(records[k], now);
    }
  }

  /** The record kept for `k` after a history, by the unbounded account of it. */
  ghost predicate Mirrors(limits: Limits, records: Records, ops: seq<Op>)
    requires ValidLimits(limits)
  {
    forall k :: Values(records, k) == Kept(PutsAt(ops, k), limits.perKey)
  }

  lemma {:induction false} PutsAtMembers(ops: seq<Op>, k: Key, r: Record)
    requires r in PutsAt(ops, k)
    ensures exists i :: 0 <= i < |ops| && ops[i].PutOp? && ops[i].record == r
  {
    var before, last := ops[..|ops| - 1], ops[|ops| - 1];
    if r in PutsAt(before, k) {
      PutsAtMembers(before, k, r);
      var i :| 0 <= i < |before| && before[i].PutOp? && before[i].record == r;
      assert ops[i].record == r;
    } else {
      assert ops[|ops| - 1].record == r;
    }
  }

  lemma MirrorsLive(limits: Limits, records: Records, ops: seq<Op>, now: u64)
    requires ValidLimits(limits) && Mirrors(limits, records, ops)
    requires forall i :: 0 <= i < |ops| && ops[i].PutOp? ==> ops[i].record.expiresAt >= now
    ensures AllLive(records, now)
  {
    forall k, i | k in records && 0 <= i < |records[k]| ensures records[k][i].expiresAt >= now {
      assert Values(records, k) == Kept(PutsAt(ops, k), limits.perKey);
      KeptWasPut(PutsAt(ops, k), limits.perKey, records[k][i]);
      PutsAtMembers(ops, k, records[k][i]);
    }
  }

  lemma FiledLive(limits: Limits, records: Records, r: Record, now: u64)
    requires ValidLimits(limits) && AllLive(records, now) && r.expiresAt >= now
    ensures AllLive(records[r.key := File(Values(records, r.key), r, limits.perKey).values], now)
  {
    var values := File(Values(records, r.key), r, limits.perKey).values;
    forall i | 0 <= i < |values| ensures values[i].expiresAt >= now {
      FiledMembers(Values(records, r.key), r, limits.perKey, values[i]);
    }
  }

  /** With room and nothing expiring, a put changes the list of its key and no other. */
  lemma PutIsLocal(limits: Limits, records: Records, r: Record, now: u64, k: Key)
    requires ValidLimits(limits) && AllLive(records, now) && r.expiresAt >= now
    requires Total(AfterPush(limits, records, r, now)) <= limits.maxRecords
    ensures Values(Put(limits, records, r, now).0, k)
            == if k == r.key then File(Values(records, k), r, limits.perKey).values else Values(records, k)
  {
    FiledLive(limits, records, r, now);
    ExpireNothing(records[r.key := File(Values(records, r.key), r, limits.perKey).values], now, k);
  }

  lemma PutsAtSnoc(ops: seq<Op>, op: Op, k: Key)
    ensures PutsAt(ops + [op], k) == PutsAt(ops, k) + if op.PutOp? && op.record.key == k then [op.record] else []
  {
    assert (ops + [op])[..|ops|] == ops;
  }

  lemma KeptSnoc(puts: seq<Record>, r: Record, perKey: nat)
    requires perKey >= 1
    ensures Kept(puts + [r], perKey) == File(Kept(puts, perKey), r, perKey).values
  {
    assert (puts + [r])[..|puts|] == puts;
  }

  lemma StepMirrors(limits: Limits, records: Records, ops: seq<Op>, op: Op)
    requires ValidLimits(limits) && Mirrors(limits, records, ops)
    requires forall i :: 0 <= i < |ops| && ops[i].PutOp? ==> ops[i].record.expiresAt >= op.now
    requires op.PutOp? ==> op.record.expiresAt >= op.now
                           && Total(AfterPush(limits, records, op.record, op.now)) <= limits.maxRecords
    ensures Mirrors(limits, Step(limits, records, op), ops + [op])
  {
    MirrorsLive(limits, records, ops, op.now);
    forall k ensures Values(Step(limits, records, op), k) == Kept(PutsAt(ops + [op], k), limits.perKey) {
      StepMirrorsAt(limits, records, ops, op, k);
    }
  }

  lemma StepMirrorsAt(limits: Limits, records: Records, ops: seq<Op>, op: Op, k: Key)
    requires ValidLimits(limits) && Values(records, k) == Kept(PutsAt(ops, k), limits.perKey)
    requires AllLive(records, op.now)
    requires op.PutOp? ==> op.record.expiresAt >= op.now
                           && Total(AfterPush(limits, records, op.record, op.now)) <= limits.maxRecords
    ensures Values(Step(limits, records, op), k) == Kept(PutsAt(ops + [op], k), limits.perKey)
  {
    PutsAtSnoc(ops, op, k);
    assert PutsAt(ops, k) + [] == PutsAt(ops, k);
    match op {
      case PutOp(r, now) =>
        PutIsLocal(limits, records, r, now, k);
        KeptSnoc(PutsAt(ops, k), r, limits.perKey);
      case GetOp(key, now) =>
        if key in records {
          LiveIsAll(records[key], now);
        }
      case ExpireOp(now) => ExpireNothing(records, now, k);
    }
  }

  lemma NothingExpiresBefore(ops: seq<Op>)
    requires ops != [] && NothingExpires(ops)
    ensures var before, last := ops[..|ops| - 1], ops[|ops| - 1];
            && NothingExpires(before)
            && (forall i :: 0 <= i < |before| && before[i].PutOp? ==> before[i].record.expiresAt >= last.now)
            && (last.PutOp? ==> last.record.expiresAt >= last.now)
  {
  }

  lemma {:induction false} RunMirrors(limits: Limits, ops: seq<Op>)
    requires ValidLimits(limits) && NothingExpires(ops) && RoomThroughout(limits, ops)
    ensures Mirrors(limits, Run(limits, ops), ops)
  {
    if ops != [] {
      var before, last := ops[..|ops| - 1], ops[|ops| - 1];
      NothingExpiresBefore(ops);
      RunMirrors(limits, before);
      StepMirrors(limits, Run(limits, before), before, last);
      assert ops == before + [last];
    }
  }

  /**
   After any history of puts, reads and expiries in which nothing expires and
   the total bound is never met, every key holds a top selection of all that was
   put under it.
   */
  lemma StoreKeepsTheBest(limits: Limits, ops: seq<Op>, k: Key)
    requires ValidLimits(limits) && NothingExpires(ops) && RoomThroughout(limits, ops)
    ensures TopOf(Values(Run(limits, ops), k), Best(PutsAt(ops, k)), limits.perKey)
  {
    RunMirrors(limits, ops);
    KeptIsTop(PutsAt(ops, k), limits.perKey);
  }
}

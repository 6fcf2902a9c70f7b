/**
 The bounded record store of the DHT (crates/network/src/dht.rs): a map from
 keys to short lists of records, at most one per owner.
 */
module DhtStore {
  import opened Machine
  import opened Sorting

  /** A (namespace, key) pair, by its place in the order of such pairs. */
  type Key = nat
  type Owner = nat

  datatype Record = Record(key: Key, owner: Owner, sequence: u64, expiresAt: u64, payload: nat)

  type Records = map<Key, seq<Record>>

  datatype Limits = Limits(maxRecords: nat, perKey: nat)

  predicate ValidLimits(l: Limits) { l.maxRecords >= 1 && l.perKey >= 1 }

  ghost predicate Holds(records: Records, k: Key, r: Record) { k in records && r in records[k] }

  /** Orders records by (sequence, expires_at). */
  function Rank(r: Record): int { r.sequence * (U64_MAX + 1) + r.expiresAt }

  function NewestFirst(r: Record): int { 0 - (r.sequence as int) }

  // ----- one key

  function IndexOfOwner(values: seq<Record>, owner: Owner): (r: Option<nat>)
    ensures r.Some? ==> r.value < |values| && values[r.value].owner == owner
    ensures r.Some? ==> forall i :: 0 <= i < r.value ==> values[i].owner != owner
    ensures r.None? ==> forall i :: 0 <= i < |values| ==> values[i].owner != owner
  {
    if values == [] then None
    else if values[0].owner == owner then Some(0)
    else
      match IndexOfOwner(values[1..], owner)
      case None => None
      case Some(i) => Some(i + 1)
  }

  datatype Filed = Refused(values: seq<Record>) | Replaced(values: seq<Record>) | Pushed(values: seq<Record>)

  /** What `put` does to the list of the record's key. */
  function File(values: seq<Record>, r: Record, perKey: nat): Filed
    requires perKey >= 1
  {
    var existing := IndexOfOwner(values, r.owner);
    if existing.Some? then
      if values[existing.value].sequence >= r.sequence then Refused(values)
      else Replaced(values[existing.value := r])
    else if |values| < perKey then Pushed(values + [r])
    else
      SortFacts(values, Rank);
      var sorted := SortBy(values, Rank);
      if sorted[0].sequence >= r.sequence then Refused(sorted) else Pushed(sorted[1..] + [r])
  }

  function LiveOnly(values: seq<Record>, now: u64): seq<Record> {
    if values == [] then []
    else LiveOnly(values[..|values| - 1], now)
         + if values[|values| - 1].expiresAt >= now then [values[|values| - 1]] else []
  }

  // ----- the whole store

  /** The number of records: the sum of the list lengths. */
  function Total(records: Records): nat
    decreases |records|
  {
    if records == map[] then 0
    else
      var k := Least(records.Keys);
      assert (records - {k}).Keys == records.Keys - {k};
      |records[k]| + Total(records - {k})
  }

  function Expire(records: Records, now: u64): Records {
    map k | k in records && LiveOnly(records[k], now) != [] :: LiveOnly(records[k], now)
  }

  datatype Place = Place(key: Key, index: nat)

  function Places(records: Records): set<Place> {
    set k, i | k in records && 0 <= i < |records[k]| :: Place(k, i)
  }

  lemma PlacesIff(records: Records, p: Place)
    ensures p in Places(records) <==> p.key in records && p.index < |records[p.key]|
  {
    if p.key in records && p.index < |records[p.key]| {
      assert Place(p.key, p.index) in Places(records);
    }
  }

  function RecordAt(records: Records, p: Place): Record
    requires p in Places(records)
  {
    PlacesIff(records, p);
    records[p.key][p.index]
  }

  /** `p` comes before `q` for `min_by_key`: lower rank, or equal rank and earlier in the iteration. */
  predicate Ahead(records: Records, p: Place, q: Place)
    requires p in Places(records) && q in Places(records)
  {
    var a, b := Rank(RecordAt(records, p)), Rank(RecordAt(records, q));
    a < b || (a == b && (p.key < q.key || (p.key == q.key && p.index < q.index)))
  }

  predicate IsWorst(records: Records, p: Place) {
    p in Places(records) && forall q :: q in Places(records) ==> q == p || Ahead(records, p, q)
  }

  lemma WorstOf(records: Records, ps: set<Place>) returns (w: Place)
    requires ps != {} && ps <= Places(records)
    ensures w in ps && forall q :: q in ps ==> q == w || Ahead(records, w, q)
  {
    var p :| p in ps;
    if ps == {p} {
      w := p;
    } else {
      var m := WorstOf(records, ps - {p});
      w := if Ahead(records, p, m) then p else m;
      forall q | q in ps ensures q == w || Ahead(records, w, q) {
        if q != p && q != m {
          assert q in ps - {p};
        }
      }
    }
  }

  function Worst(records: Records): (p: Place)
    requires Places(records) != {}
    ensures IsWorst(records, p)
  {
    assert exists p :: p in Places(records) && IsWorst(records, p) by {
      var w := WorstOf(records, Places(records));
      assert IsWorst(records, w);
    }
    var p :| p in Places(records) && IsWorst(records, p);
    p
  }

  lemma {:induction false} PlacesEmpty(records: Records)
    requires Places(records) == {}
    ensures Total(records) == 0
    decreases |records|
  {
    if records != map[] {
      var k := Least(records.Keys);
      assert (records - {k}).Keys == records.Keys - {k};
      PlacesIff(records, Place(k, 0));
      forall p ensures p !in Places(records - {k}) {
        PlacesIff(records - {k}, p);
        PlacesIff(records, p);
      }
      PlacesEmpty(records - {k});
    }
  }

  function Remove(values: seq<Record>, i: nat): seq<Record>
    requires i < |values|
  {
    values[..i] + values[i + 1..]
  }

  /** One pass of the eviction loop. */
  function EvictOne(records: Records): Records
    requires Places(records) != {}
  {
    var p := Worst(records);
    PlacesIff(records, p);
    var values := records[p.key];
    var index := IndexOfOwner(values, values[p.index].owner);
    if index.None? then records
    else
      var rest := Remove(values, index.value);
      if rest == [] then records - {p.key} else records[p.key := rest]
  }

  lemma TotalUnfold(records: Records, k: Key)
    requires IsLeast(records.Keys, k)
    ensures Total(records) == |records[k]| + Total(records - {k})
  {
    assert Least(records.Keys) == k;
  }

  lemma {:induction false} TotalWithout(records: Records, k: Key)
    requires k in records
    ensures Total(records) == |records[k]| + Total(records - {k})
    decreases |records|
  {
    var l := Least(records.Keys);
    TotalUnfold(records, l);
    if l != k {
      assert (records - {l}).Keys == records.Keys - {l};
      TotalWithout(records - {l}, k);
      assert (records - {k}).Keys == records.Keys - {k};
      assert IsLeast((records - {k}).Keys, l);
      TotalUnfold(records - {k}, l);
      assert (records - {l}) - {k} == (records - {k}) - {l};
    }
  }

  lemma TotalWith(records: Records, k: Key, values: seq<Record>)
    ensures Total(records[k := values]) == |values| + Total(records - {k})
  {
    TotalWithout(records[k := values], k);
    assert records[k := values] - {k} == records - {k};
  }

  lemma TotalNow(records: Records, k: Key)
    ensures Total(records) == (if k in records then |records[k]| else 0) + Total(records - {k})
  {
    if k in records {
      TotalWithout(records, k);
    } else {
      assert records - {k} == records;
    }
  }

  lemma EvictsOne(records: Records)
    requires Places(records) != {}
    ensures Total(EvictOne(records)) == Total(records) - 1
  {
    var p := Worst(records);
    PlacesIff(records, p);
    TotalNow(records, p.key);
    var rest := Remove(records[p.key], IndexOfOwner(records[p.key], records[p.key][p.index].owner).value);
    TotalWith(records, p.key, rest);
  }

  /** `enforce_total_bound` after its expiry: every pass removes exactly one record. */
  function Enforce(records: Records, max: nat): Records
    decreases Total(records)
  {
    if Total(records) <= max then records
    else if Places(records) == {} then records
    else
      EvictsOne(records);
      Enforce(EvictOne(records), max)
  }

  function Values(records: Records, k: Key): seq<Record> { if k in records then records[k] else [] }

  function Put(limits: Limits, records: Records, r: Record, now: u64): (Records, bool)
    requires ValidLimits(limits)
  {
    if r.expiresAt < now then (records, false)
    else
      match File(Values(records, r.key), r, limits.perKey)
      case Refused(values) => (records[r.key := values], false)
      case Replaced(values) => (records[r.key := values], true)
      case Pushed(values) => (Enforce(Expire(records[r.key := values], now), limits.maxRecords), true)
  }

  function AfterGet(records: Records, k: Key, now: u64): Records {
    if k in records then records[k := LiveOnly(records[k], now)] else records
  }

  function Got(records: Records, k: Key, now: u64): seq<Record> {
    SortBy(LiveOnly(Values(records, k), now), NewestFirst)
  }

  datatype Op = PutOp(record: Record, now: u64) | GetOp(key: Key, now: u64) | ExpireOp(now: u64)

  function Step(limits: Limits, records: Records, op: Op): Records
    requires ValidLimits(limits)
  {
    match op
    case PutOp(r, now) => Put(limits, records, r, now).0
    case GetOp(k, now) => AfterGet(records, k, now)
    case ExpireOp(now) => Expire(records, now)
  }

  function Run(limits: Limits, ops: seq<Op>): Records
    requires ValidLimits(limits)
  {
    if ops == [] then map[] else Step(limits, Run(limits, ops[..|ops| - 1]), ops[|ops| - 1])
  }

  // ----- what every reachable store satisfies

  function OwnerOf(r: Record): Owner { r.owner }

  ghost predicate OneEach(values: seq<Record>) { DistinctBy(values, OwnerOf) }

  ghost predicate SlotGood(limits: Limits, k: Key, values: seq<Record>) {
    && |values| <= limits.perKey
    && OneEach(values)
    && forall i :: 0 <= i < |values| ==> values[i].key == k
  }

  ghost predicate SlotsGood(limits: Limits, records: Records) {
    forall k :: k in records ==> SlotGood(limits, k, records[k])
  }

  ghost predicate StoreGood(limits: Limits, records: Records) {
    SlotsGood(limits, records) && Total(records) <= limits.maxRecords
  }

  lemma {:induction false} LiveFacts(values: seq<Record>, now: u64)
    ensures |LiveOnly(values, now)| <= |values|
    ensures forall r :: r in LiveOnly(values, now) <==> r in values && r.expiresAt >= now
    ensures OneEach(values) ==> OneEach(LiveOnly(values, now))
  {
    if values != [] {
      var before, last := values[..|values| - 1], values[|values| - 1];
      assert values == before + [last];
      LiveFacts(before, now);
      if OneEach(values) {
        assert forall r :: r in before ==> r.owner != last.owner;
        assert forall i :: 0 <= i < |LiveOnly(before, now)| ==> LiveOnly(before, now)[i] in before;
      }
    }
  }

  lemma LiveGood(limits: Limits, k: Key, values: seq<Record>, now: u64)
    requires SlotGood(limits, k, values)
    ensures SlotGood(limits, k, LiveOnly(values, now))
  {
    LiveFacts(values, now);
    var live := LiveOnly(values, now);
    forall i | 0 <= i < |live| ensures live[i].key == k {
      assert live[i] in values;
    }
  }

  lemma TotalMonotone(a: Records, b: Records)
    requires a.Keys <= b.Keys && forall k :: k in a ==> |a[k]| <= |b[k]|
    ensures Total(a) <= Total(b)
    decreases |b|
  {
    if b == map[] {
      assert a == map[];
    } else {
      var k := Least(b.Keys);
      assert (b - {k}).Keys == b.Keys - {k};
      TotalMonotone(a - {k}, b - {k});
      TotalNow(a, k);
    }
  }

  lemma ExpireGood(limits: Limits, records: Records, now: u64)
    requires SlotsGood(limits, records)
    ensures SlotsGood(limits, Expire(records, now))
    ensures Total(Expire(records, now)) <= Total(records)
  {
    var live := Expire(records, now);
    forall k | k in live ensures SlotGood(limits, k, live[k]) && |live[k]| <= |records[k]| {
      LiveGood(limits, k, records[k], now);
      LiveFacts(records[k], now);
    }
    TotalMonotone(live, records);
  }

  lemma SortedGood(limits: Limits, k: Key, values: seq<Record>, owner: Owner)
    requires SlotGood(limits, k, values) && IndexOfOwner(values, owner).None?
    ensures SlotGood(limits, k, SortBy(values, Rank))
    ensures forall i :: 0 <= i < |SortBy(values, Rank)| ==> SortBy(values, Rank)[i].owner != owner
  {
    var sorted := SortBy(values, Rank);
    SortFacts(values, Rank);
    SortMembers(values, Rank);
    DistinctPermute(values, sorted, OwnerOf);
    forall i | 0 <= i < |sorted| ensures sorted[i].key == k && sorted[i].owner != owner {
      assert sorted[i] in values;
    }
  }

  lemma FileGood(limits: Limits, k: Key, values: seq<Record>, r: Record)
    requires ValidLimits(limits) && SlotGood(limits, k, values) && r.key == k
    ensures SlotGood(limits, k, File(values, r, limits.perKey).values)
    ensures !File(values, r, limits.perKey).Pushed? ==> |File(values, r, limits.perKey).values| == |values|
    ensures |File(values, r, limits.perKey).values| <= |values| + 1
  {
    if IndexOfOwner(values, r.owner).None? && |values| >= limits.perKey {
      SortFacts(values, Rank);
      SortedGood(limits, k, values, r.owner);
    }
  }

  lemma EvictGood(limits: Limits, records: Records)
    requires SlotsGood(limits, records) && Places(records) != {}
    ensures SlotsGood(limits, EvictOne(records))
  {
  }

  lemma {:induction false} EnforceGood(limits: Limits, records: Records, max: nat)
    requires SlotsGood(limits, records)
    ensures SlotsGood(limits, Enforce(records, max))
    ensures Total(Enforce(records, max)) == Min(Total(records), max)
    decreases Total(records)
  {
    if Total(records) > max {
      if Places(records) == {} {
        PlacesEmpty(records);
      }
      EvictsOne(records);
      EvictGood(limits, records);
      EnforceGood(limits, EvictOne(records), max);
    }
  }

  lemma StepGood(limits: Limits, records: Records, op: Op)
    requires ValidLimits(limits) && StoreGood(limits, records)
    ensures StoreGood(limits, Step(limits, records, op))
  {
    match op {
      case PutOp(r, now) =>
        var filed := File(Values(records, r.key), r, limits.perKey);
        FileGood(limits, r.key, Values(records, r.key), r);
        TotalNow(records, r.key);
        TotalWith(records, r.key, filed.values);
        ExpireGood(limits, records[r.key := filed.values], now);
        EnforceGood(limits, Expire(records[r.key := filed.values], now), limits.maxRecords);
      case GetOp(k, now) =>
        if k in records {
          LiveGood(limits, k, records[k], now);
          LiveFacts(records[k], now);
          TotalMonotone(AfterGet(records, k, now), records);
        }
      case ExpireOp(now) => ExpireGood(limits, records, now);
    }
  }

  /**
   In every reachable store each key holds at most `max_records_per_key` records
   of distinct owners, filed under their own key, and the total is within
   `max_records`.
   */
  lemma {:induction false} ReachableStoreGood(limits: Limits, ops: seq<Op>)
    requires ValidLimits(limits)
    ensures StoreGood(limits, Run(limits, ops))
  {
    if ops != [] {
      ReachableStoreGood(limits, ops[..|ops| - 1]);
      StepGood(limits, Run(limits, ops[..|ops| - 1]), ops[|ops| - 1]);
    }
  }
}

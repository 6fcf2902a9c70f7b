/**
 The routing table of the DHT (crates/network/src/dht.rs): 256 bounded buckets,
 a replacement cache and a short list of protected contacts.
 */
module DhtTable {
  import opened Machine
  import opened Sorting
  import opened NodeIds
  import opened DiverseSelection

  const BUCKETS := 256
  const MAX_PER_PREFIX := 4
  const MAX_PROTECTED := 16

  /** A signed announcement; `prefix` is the network prefix of its first address. */
  datatype Contact = Contact(id: Id, announcedAt: u64, expiresAt: u64, prefix: nat, payload: nat)

  datatype Table = Table(
    local: Id, k: nat, replacementLimit: nat,
    buckets: seq<seq<Contact>>, replacements: seq<Contact>, protected: seq<Contact>)

  function EmptyTable(local: Id, k: nat, replacementLimit: nat): Table {
    Table(local, Max(k, 1), replacementLimit, seq(BUCKETS, i => []), [], [])
  }

  function Find(s: seq<Contact>, id: Id): (r: Option<nat>)
    ensures r.Some? ==> r.value < |s| && s[r.value].id == id && forall i :: 0 <= i < r.value ==> s[i].id != id
    ensures r.None? ==> forall i :: 0 <= i < |s| ==> s[i].id != id
  {
    if s == [] then None
    else if s[0].id == id then Some(0)
    else
      match Find(s[1..], id)
      case None => None
      case Some(i) => Some(i + 1)
  }

  predicate Fresher(previous: Contact, next: Contact) {
    next.announcedAt > previous.announcedAt
    || (next.announcedAt == previous.announcedAt && next.expiresAt >= previous.expiresAt)
  }

  function Refresh(s: seq<Contact>, i: nat, c: Contact): seq<Contact>
    requires i < |s|
  {
    if Fresher(s[i], c) then s[i := c] else s
  }

  function CountPrefix(s: seq<Contact>, prefix: nat): nat {
    if s == [] then 0
    else CountPrefix(s[..|s| - 1], prefix) + if s[|s| - 1].prefix == prefix then 1 else 0
  }

  /** The first of the longest-announced contacts with another prefix. */
  function Victim(s: seq<Contact>, prefix: nat): (r: Option<nat>)
    ensures r.Some? ==>
              && r.value < |s| && s[r.value].prefix != prefix
              && forall i :: 0 <= i < |s| && s[i].prefix != prefix ==> s[r.value].announcedAt <= s[i].announcedAt
    ensures r.None? ==> forall i :: 0 <= i < |s| ==> s[i].prefix == prefix
  {
    if s == [] then None
    else
      var before, last := Victim(s[..|s| - 1], prefix), s[|s| - 1];
      if last.prefix != prefix && (before.None? || last.announcedAt < s[before.value].announcedAt)
      then Some(|s| - 1) else before
  }

  function AddReplacement(t: Table, c: Contact): (Table, bool) {
    var existing := Find(t.replacements, c.id);
    if existing.Some? then
      (t.(replacements := Refresh(t.replacements, existing.value, c)), Fresher(t.replacements[existing.value], c))
    else if t.replacementLimit == 0 then (t, false)
    else
      var pushed := t.replacements + [c];
      (t.(replacements := if |pushed| > t.replacementLimit then pushed[1..] else pushed), false)
  }

  function SetBucket(t: Table, b: nat, bucket: seq<Contact>): Table
    requires b < |t.buckets|
  {
    t.(buckets := t.buckets[b := bucket])
  }

  function InsertNew(t: Table, b: nat, c: Contact): (Table, bool)
    requires b < |t.buckets|
  {
    var bucket := t.buckets[b];
    var same := CountPrefix(bucket, c.prefix);
    if |bucket| < t.k then
      if same < MAX_PER_PREFIX then (SetBucket(t, b, bucket + [c]), true) else AddReplacement(t, c)
    else
      var victim := Victim(bucket, c.prefix);
      if same < (t.k + 1) / 2 && victim.Some? then (SetBucket(t, b, bucket[victim.value := c]), true)
      else AddReplacement(t, c)
  }

  function Insert(t: Table, c: Contact, now: u64): (Table, bool)
    requires |t.buckets| == BUCKETS
  {
    if c.id == t.local || c.expiresAt < now then (t, false)
    else
      BucketIsLog(t.local, c.id);
      var b := BucketIndex(t.local, c.id);
      var guarded, known := Find(t.protected, c.id), Find(t.buckets[b], c.id);
      if guarded.Some? then
        (t.(protected := Refresh(t.protected, guarded.value, c)), Fresher(t.protected[guarded.value], c))
      else if known.Some? then
        (SetBucket(t, b, Refresh(t.buckets[b], known.value, c)), Fresher(t.buckets[b][known.value], c))
      else InsertNew(t, b, c)
  }

  function Expiry(c: Contact): int { c.expiresAt }

  function Protect(t: Table, c: Contact, now: u64): (Table, bool) {
    if c.id == t.local || c.expiresAt < now then (t, false)
    else
      var existing := Find(t.protected, c.id);
      if existing.Some? then
        (t.(protected := Refresh(t.protected, existing.value, c)), Fresher(t.protected[existing.value], c))
      else
        SortFacts(t.protected, Expiry);
        var room := if |t.protected| >= MAX_PROTECTED then SortBy(t.protected, Expiry)[1..] else t.protected;
        (t.(protected := room + [c]), true)
  }

  function Live(s: seq<Contact>, now: u64): seq<Contact> {
    if s == [] then []
    else Live(s[..|s| - 1], now) + if s[|s| - 1].expiresAt >= now then [s[|s| - 1]] else []
  }

  function Expire(t: Table, now: u64): Table {
    t.(buckets := seq(|t.buckets|, b requires 0 <= b < |t.buckets| => Live(t.buckets[b], now)),
       replacements := Live(t.replacements, now), protected := Live(t.protected, now))
  }

  datatype Op = InsertOp(contact: Contact, now: u64) | ProtectOp(contact: Contact, now: u64) | ExpireOp(now: u64)

  function Step(t: Table, op: Op): (next: Table)
    requires |t.buckets| == BUCKETS
    ensures |next.buckets| == BUCKETS
  {
    match op
    case InsertOp(c, now) => Insert(t, c, now).0
    case ProtectOp(c, now) => Protect(t, c, now).0
    case ExpireOp(now) => Expire(t, now)
  }

  function Run(local: Id, k: nat, replacementLimit: nat, ops: seq<Op>): (t: Table)
    ensures |t.buckets| == BUCKETS
  {
    if ops == [] then EmptyTable(local, k, replacementLimit)
    else Step(Run(local, k, replacementLimit, ops[..|ops| - 1]), ops[|ops| - 1])
  }

  // ----- what every reachable table satisfies

  function IdOf(c: Contact): Id { c.id }

  ghost predicate DistinctIds(s: seq<Contact>) { DistinctBy(s, IdOf) }

  ghost predicate Foreign(local: Id, s: seq<Contact>) { forall i :: 0 <= i < |s| ==> s[i].id != local }

  ghost predicate AtHome(local: Id, b: nat, c: Contact) { c.id != local && BucketIndex(local, c.id) == b }

  ghost predicate AllAtHome(local: Id, b: nat, s: seq<Contact>) {
    forall i :: 0 <= i < |s| ==> AtHome(local, b, s[i])
  }

  ghost predicate BucketGood(t: Table, b: nat, bucket: seq<Contact>) {
    && |bucket| <= t.k
    && DistinctIds(bucket)
    && AllAtHome(t.local, b, bucket)
  }

  ghost predicate TableGood(t: Table) {
    && t.k >= 1 && |t.buckets| == BUCKETS
    && (forall b :: 0 <= b < BUCKETS ==> BucketGood(t, b, t.buckets[b]))
    && |t.replacements| <= t.replacementLimit && DistinctIds(t.replacements) && Foreign(t.local, t.replacements)
    && |t.protected| <= MAX_PROTECTED && DistinctIds(t.protected) && Foreign(t.local, t.protected)
  }

  lemma {:induction false} LiveFacts(s: seq<Contact>, now: u64)
    ensures |Live(s, now)| <= |s|
    ensures forall c :: c in Live(s, now) <==> c in s && c.expiresAt >= now
    ensures DistinctIds(s) ==> DistinctIds(Live(s, now))
  {
    if s != [] {
      var before, last := s[..|s| - 1], s[|s| - 1];
      assert s == before + [last];
      LiveFacts(before, now);
      if DistinctIds(s) {
        forall i | 0 <= i < |Live(before, now)| ensures Live(before, now)[i].id != last.id {
          assert Live(before, now)[i] in before;
        }
      }
    }
  }

  lemma LiveBucketGood(t: Table, b: nat, bucket: seq<Contact>, now: u64)
    requires BucketGood(t, b, bucket)
    ensures BucketGood(t, b, Live(bucket, now))
  {
    LiveFacts(bucket, now);
    forall i | 0 <= i < |Live(bucket, now)| ensures AtHome(t.local, b, Live(bucket, now)[i]) {
      assert Live(bucket, now)[i] in bucket;
    }
  }

  lemma LiveForeign(local: Id, s: seq<Contact>, now: u64)
    requires Foreign(local, s)
    ensures Foreign(local, Live(s, now))
  {
    LiveFacts(s, now);
    forall i | 0 <= i < |Live(s, now)| ensures Live(s, now)[i].id != local {
      assert Live(s, now)[i] in s;
    }
  }

  lemma ExpireGood(t: Table, now: u64)
    requires TableGood(t)
    ensures TableGood(Expire(t, now))
  {
    LiveFacts(t.replacements, now);
    LiveFacts(t.protected, now);
    LiveForeign(t.local, t.replacements, now);
    LiveForeign(t.local, t.protected, now);
    var e := Expire(t, now);
    forall b | 0 <= b < BUCKETS ensures BucketGood(e, b, e.buckets[b]) {
      LiveBucketGood(t, b, t.buckets[b], now);
    }
  }

  lemma ReplacementGood(t: Table, c: Contact)
    requires TableGood(t) && c.id != t.local
    ensures TableGood(AddReplacement(t, c).0)
    ensures AddReplacement(t, c).0.buckets == t.buckets && AddReplacement(t, c).0.protected == t.protected
  {
  }

  lemma SetBucketGood(t: Table, b: nat, bucket: seq<Contact>)
    requires TableGood(t) && b < BUCKETS && BucketGood(t, b, bucket)
    ensures TableGood(SetBucket(t, b, bucket))
  {
    var next := SetBucket(t, b, bucket);
    forall i | 0 <= i < BUCKETS ensures BucketGood(next, i, next.buckets[i]) {
      assert BucketGood(t, i, t.buckets[i]);
    }
  }

  lemma DistinctAfter(s: seq<Contact>, c: Contact)
    requires DistinctIds(s) && Find(s, c.id).None?
    ensures DistinctIds(s + [c])
  {
  }

  lemma PushedGood(t: Table, b: nat, bucket: seq<Contact>, c: Contact)
    requires BucketGood(t, b, bucket) && AtHome(t.local, b, c) && Find(bucket, c.id).None?
    requires |bucket| < t.k
    ensures BucketGood(t, b, bucket + [c])
  {
    DistinctAfter(bucket, c);
  }

  lemma ReplacedGood(t: Table, b: nat, bucket: seq<Contact>, c: Contact, i: nat)
    requires BucketGood(t, b, bucket) && AtHome(t.local, b, c) && Find(bucket, c.id).None?
    requires i < |bucket|
    ensures BucketGood(t, b, bucket[i := c])
  {
  }

  lemma RefreshedGood(t: Table, b: nat, bucket: seq<Contact>, c: Contact, i: nat)
    requires BucketGood(t, b, bucket) && i < |bucket| && bucket[i].id == c.id
    ensures BucketGood(t, b, Refresh(bucket, i, c))
  {
  }

  lemma InsertGood(t: Table, c: Contact, now: u64)
    requires TableGood(t)
    ensures TableGood(Insert(t, c, now).0)
  {
    if c.id != t.local && c.expiresAt >= now {
      BucketIsLog(t.local, c.id);
      var b := BucketIndex(t.local, c.id);
      var guarded, known := Find(t.protected, c.id), Find(t.buckets[b], c.id);
      assert BucketGood(t, b, t.buckets[b]);
      if guarded.Some? {
      } else if known.Some? {
        RefreshedGood(t, b, t.buckets[b], c, known.value);
        SetBucketGood(t, b, Refresh(t.buckets[b], known.value, c));
      } else {
        InsertNewGood(t, b, c);
      }
    }
  }

  lemma InsertNewGood(t: Table, b: nat, c: Contact)
    requires TableGood(t) && b < BUCKETS && AtHome(t.local, b, c)
    requires Find(t.buckets[b], c.id).None?
    ensures TableGood(InsertNew(t, b, c).0)
  {
    var bucket := t.buckets[b];
    var same, victim := CountPrefix(bucket, c.prefix), Victim(bucket, c.prefix);
    if |bucket| < t.k && same < MAX_PER_PREFIX {
      PushGood(t, b, c);
    } else if |bucket| >= t.k && same < (t.k + 1) / 2 && victim.Some? {
      SwapGood(t, b, c, victim.value);
    } else {
      ReplacementGood(t, c);
    }
  }

  lemma PushGood(t: Table, b: nat, c: Contact)
    requires TableGood(t) && b < BUCKETS && AtHome(t.local, b, c)
    requires Find(t.buckets[b], c.id).None? && |t.buckets[b]| < t.k
    ensures TableGood(SetBucket(t, b, t.buckets[b] + [c]))
  {
    PushedGood(t, b, t.buckets[b], c);
    SetBucketGood(t, b, t.buckets[b] + [c]);
  }

  lemma SwapGood(t: Table, b: nat, c: Contact, i: nat)
    requires TableGood(t) && b < BUCKETS && AtHome(t.local, b, c)
    requires Find(t.buckets[b], c.id).None? && i < |t.buckets[b]|
    ensures TableGood(SetBucket(t, b, t.buckets[b][i := c]))
  {
    ReplacedGood(t, b, t.buckets[b], c, i);
    SetBucketGood(t, b, t.buckets[b][i := c]);
  }

  /** Making room drops a protected contact; nothing else about the list changes. */
  lemma RoomGood(t: Table, s: seq<Contact>)
    requires |s| == MAX_PROTECTED && DistinctIds(s) && Foreign(t.local, s)
    ensures |SortBy(s, Expiry)| == |s|
    ensures DistinctIds(SortBy(s, Expiry)[1..]) && Foreign(t.local, SortBy(s, Expiry)[1..])
    ensures forall x :: x in SortBy(s, Expiry)[1..] ==> x in s
  {
    var sorted := SortBy(s, Expiry);
    SortFacts(s, Expiry);
    SortMembers(s, Expiry);
    DistinctPermute(s, sorted, IdOf);
    forall x | x in sorted[1..] ensures x in s && x.id != t.local {
      assert x in sorted;
    }
  }

  lemma ProtectGood(t: Table, c: Contact, now: u64)
    requires TableGood(t)
    ensures TableGood(Protect(t, c, now).0)
  {
    if Find(t.protected, c.id).None? && |t.protected| >= MAX_PROTECTED {
      RoomGood(t, t.protected);
      var room := SortBy(t.protected, Expiry)[1..];
      forall i | 0 <= i < |room| ensures room[i].id != c.id {
        assert room[i] in t.protected;
      }
    }
  }

  /**
   In every reachable table each contact sits in the bucket of its own distance,
   no bucket holds an id twice or more than k contacts, the node itself never
   appears, and the replacement and protected lists keep their bounds.
   */
  lemma {:induction false} ReachableTableGood(local: Id, k: nat, replacementLimit: nat, ops: seq<Op>)
    ensures TableGood(Run(local, k, replacementLimit, ops))
  {
    if ops != [] {
      var before := Run(local, k, replacementLimit, ops[..|ops| - 1]);
      ReachableTableGood(local, k, replacementLimit, ops[..|ops| - 1]);
      match ops[|ops| - 1] {
        case InsertOp(c, now) => InsertGood(before, c, now);
        case ProtectOp(c, now) => ProtectGood(before, c, now);
        case ExpireOp(now) => ExpireGood(before, now);
      }
    }
  }

  /** An id is in one bucket at most. */
  lemma OneBucketPerId(t: Table, b: nat, d: nat, x: Contact, y: Contact)
    requires TableGood(t) && b < BUCKETS && d < BUCKETS && x in t.buckets[b] && y in t.buckets[d] && x.id == y.id
    ensures b == d && x == y
  {
    assert BucketGood(t, b, t.buckets[b]) && BucketGood(t, d, t.buckets[d]);
  }
}

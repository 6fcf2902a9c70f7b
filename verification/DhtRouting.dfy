/**
 Reading the routing table: the nearest live contacts of a target, the diverse
 selection from them, and the table as an object that changes in place.
 */
module DhtRouting {
  import opened Machine
  import opened Sorting
  import opened NodeIds
  import opened DiverseSelection
  import opened DhtTable

  function Flatten(buckets: seq<seq<Contact>>): seq<Contact> {
    if buckets == [] then [] else Flatten(buckets[..|buckets| - 1]) + buckets[|buckets| - 1]
  }

  /** Every copy the table holds, in the order `closest` chains them. */
  function Copies(t: Table): seq<Contact> { Flatten(t.buckets) + t.replacements + t.protected }

  function DistanceTo(target: Id): Id -> int { (id: Id) => Distance(id, target) }

  ghost predicate Injective(near: Id -> int) { forall a, b :: near(a) == near(b) ==> a == b }

  lemma DistanceToInjective(target: Id)
    ensures Injective(DistanceTo(target))
  {
    forall a, b | DistanceTo(target)(a) == DistanceTo(target)(b) ensures a == b {
      DistanceInjective(a, b, target);
    }
  }

  function By(near: Id -> int): Contact -> int { (c: Contact) => near(c.id) }

  /** `dedup_by_key`: drop an element whose id equals that of the one kept before it. */
  function Dedup(s: seq<Contact>): seq<Contact> {
    if s == [] then []
    else
      var before, last := Dedup(s[..|s| - 1]), s[|s| - 1];
      if before != [] && before[|before| - 1].id == last.id then before else before + [last]
  }

  function Ranked(t: Table, target: Id, now: u64): seq<Contact> {
    Dedup(SortBy(Live(Copies(t), now), By(DistanceTo(target))))
  }

  function Truncate(s: seq<Contact>, limit: nat): seq<Contact> { if |s| <= limit then s else s[..limit] }

  function Closest(t: Table, target: Id, limit: nat, now: u64): seq<Contact> {
    Truncate(Ranked(t, target, now), limit)
  }

  // ----- deduplication

  ghost predicate Strictly(s: seq<Contact>, near: Id -> int) {
    forall i, j :: 0 <= i < j < |s| ==> near(s[i].id) < near(s[j].id)
  }

  predicate HasId(s: seq<Contact>, id: Id) { exists i :: 0 <= i < |s| && s[i].id == id }

  lemma SortedPair(s: seq<Contact>, near: Id -> int, i: nat, j: nat)
    requires SortedBy(s, By(near)) && i <= j < |s|
    ensures near(s[i].id) <= near(s[j].id)
  {
    if i < j {
      assert By(near)(s[i]) <= By(near)(s[j]);
    }
  }

  lemma {:induction false} DedupLast(s: seq<Contact>)
    requires s != []
    ensures Dedup(s) != [] && Dedup(s)[|Dedup(s)| - 1].id == s[|s| - 1].id
  {
  }

  predicate Repeats(before: seq<Contact>, last: Contact) { before != [] && before[|before| - 1].id == last.id }

  lemma DedupSnoc(before: seq<Contact>, last: Contact)
    ensures Dedup(before + [last]) == Dedup(before) + if Repeats(before, last) then [] else [last]
  {
    var s := before + [last];
    assert s[..|s| - 1] == before && s[|s| - 1] == last;
    if before == [] {
      assert Dedup(before) == [];
    } else {
      DedupLast(before);
    }
  }

  /** Because distinct ids are at distinct distances, dropping adjacent repeats drops all repeats. */
  lemma {:induction false} DedupStrict(s: seq<Contact>, near: Id -> int)
    requires SortedBy(s, By(near)) && Injective(near)
    ensures Strictly(Dedup(s), near)
  {
    if s != [] {
      var before, last := s[..|s| - 1], s[|s| - 1];
      SortedPrefix(s, By(near), |s| - 1);
      DedupStrict(before, near);
      assert s == before + [last];
      DedupSnoc(before, last);
      if before != [] && !Repeats(before, last) {
        NextIsFarther(before, last, near);
        DedupLast(before);
        StrictlySnoc(Dedup(before), near, last);
      }
    }
  }

  lemma NextIsFarther(before: seq<Contact>, last: Contact, near: Id -> int)
    requires SortedBy(before + [last], By(near)) && Injective(near) && before != [] && !Repeats(before, last)
    ensures near(before[|before| - 1].id) < near(last.id)
  {
    SortedPair(before + [last], near, |before| - 1, |before|);
  }

  lemma StrictlySnoc(s: seq<Contact>, near: Id -> int, c: Contact)
    requires s != [] && Strictly(s, near) && near(s[|s| - 1].id) < near(c.id)
    ensures Strictly(s + [c], near)
  {
  }

  lemma {:induction false} DedupCovers(s: seq<Contact>, i: nat)
    requires i < |s|
    ensures HasId(Dedup(s), s[i].id)
  {
    var before, last, d := s[..|s| - 1], s[|s| - 1], Dedup(s);
    if i < |before| {
      DedupCovers(before, i);
      var j :| 0 <= j < |Dedup(before)| && Dedup(before)[j].id == before[i].id;
      assert d[j].id == s[i].id;
    } else {
      assert d[|d| - 1].id == last.id;
    }
  }

  lemma FindInFront(a: seq<Contact>, b: seq<Contact>, id: Id)
    requires Find(a, id).Some?
    ensures Find(a + b, id) == Find(a, id)
  {
    var i := Find(a, id).value;
    assert (a + b)[i].id == id;
    assert forall j :: 0 <= j < i ==> (a + b)[j] == a[j];
  }

  /** In a sorted list, an id that is not last in front does not come back. */
  lemma NewIdIsNew(before: seq<Contact>, last: Contact, near: Id -> int)
    requires SortedBy(before + [last], By(near)) && Injective(near) && before != [] && !Repeats(before, last)
    ensures Find(before, last.id).None?
  {
    var found := Find(before, last.id);
    if found.Some? {
      NextIsFarther(before, last, near);
      SortedPair(before + [last], near, found.value, |before| - 1);
    }
  }

  /** Of several copies of an id, the first survives. */
  lemma {:induction false} DedupKeepsFirst(s: seq<Contact>, near: Id -> int, x: Contact)
    requires SortedBy(s, By(near)) && Injective(near) && x in Dedup(s)
    ensures Find(s, x.id).Some? && s[Find(s, x.id).value] == x
  {
    var before, last := s[..|s| - 1], s[|s| - 1];
    assert s == before + [last];
    SortedPrefix(s, By(near), |s| - 1);
    if x in Dedup(before) {
      DedupKeepsFirst(before, near, x);
      FindInFront(before, [last], x.id);
    } else {
      DedupAdded(before, last, near, x);
    }
  }

  lemma DedupAdded(before: seq<Contact>, last: Contact, near: Id -> int, x: Contact)
    requires SortedBy(before + [last], By(near)) && Injective(near)
    requires x in Dedup(before + [last]) && x !in Dedup(before)
    ensures Find(before + [last], x.id) == Some(|before|) && last == x
  {
    DedupSnoc(before, last);
    if before != [] {
      NewIdIsNew(before, last, near);
    }
    FindPushed(before, last);
  }

  lemma FindPushed(s: seq<Contact>, c: Contact)
    requires Find(s, c.id).None?
    ensures Find(s + [c], c.id) == Some(|s|)
  {
    assert (s + [c])[|s|].id == c.id;
  }

  // ----- the first copy of an id before and after sorting

  lemma {:induction false} KeyedHead(s: seq<Contact>, id: Id, near: Id -> int)
    requires Find(s, id).Some? && Injective(near)
    ensures Keyed(s, By(near), near(id)) != []
    ensures Keyed(s, By(near), near(id))[0] == s[Find(s, id).value]
  {
    var before, last := s[..|s| - 1], s[|s| - 1];
    assert s == before + [last];
    if Find(before, id).Some? {
      KeyedHead(before, id, near);
      FindInFront(before, [last], id);
    } else {
      assert last.id == id;
      KeyedNone(before, By(near), near(id));
    }
  }

  lemma FindMember(s: seq<Contact>, c: Contact)
    requires c in s
    ensures Find(s, c.id).Some?
  {
  }

  lemma SortKeepsFirst(s: seq<Contact>, id: Id, near: Id -> int)
    requires Injective(near) && Find(s, id).Some?
    ensures Find(SortBy(s, By(near)), id).Some?
    ensures SortBy(s, By(near))[Find(SortBy(s, By(near)), id).value] == s[Find(s, id).value]
  {
    var sorted := SortBy(s, By(near));
    SortFacts(s, By(near));
    SortMembers(s, By(near));
    FindMember(sorted, s[Find(s, id).value]);
    KeyedHead(s, id, near);
    KeyedHead(sorted, id, near);
  }

  // ----- closest

  function IdsOf(s: seq<Contact>): set<Id> { Prefixes(s, IdOf) }

  lemma RankedFacts(t: Table, target: Id, now: u64)
    ensures var r, live := Ranked(t, target, now), Live(Copies(t), now);
            && Strictly(r, DistanceTo(target))
            && (forall i :: 0 <= i < |live| ==> HasId(r, live[i].id))
            && (forall x :: x in r ==> Find(live, x.id).Some? && live[Find(live, x.id).value] == x)
  {
    var live, near := Live(Copies(t), now), DistanceTo(target);
    var sorted := SortBy(live, By(near));
    SortFacts(live, By(near));
    SortMembers(live, By(near));
    DistanceToInjective(target);
    DedupStrict(sorted, near);
    forall i | 0 <= i < |live| ensures HasId(Dedup(sorted), live[i].id) {
      assert live[i] in sorted;
      var j :| 0 <= j < |sorted| && sorted[j] == live[i];
      DedupCovers(sorted, j);
    }
    forall x | x in Dedup(sorted) ensures Find(live, x.id).Some? && live[Find(live, x.id).value] == x {
      DedupKeepsFirst(sorted, near, x);
      FindMember(live, x);
      SortKeepsFirst(live, x.id, near);
    }
  }

  lemma StrictlyMeansDistinct(s: seq<Contact>, near: Id -> int)
    requires Strictly(s, near)
    ensures DistinctIds(s)
  {
    forall i, j | 0 <= i < j < |s| ensures IdOf(s[i]) != IdOf(s[j]) {
      assert near(s[i].id) < near(s[j].id);
    }
  }

  lemma RankedCount(t: Table, target: Id, now: u64)
    ensures |Ranked(t, target, now)| == |IdsOf(Live(Copies(t), now))|
  {
    var r, live := Ranked(t, target, now), Live(Copies(t), now);
    RankedDistinct(t, target, now);
    forall id ensures id in Ids(r, IdOf) <==> id in IdsOf(live) {
      if id in Ids(r, IdOf) {
        RankedIsLive(t, target, now, id);
      }
      if id in IdsOf(live) {
        RankedHas(t, target, now, id);
      }
    }
    assert Ids(r, IdOf) == IdsOf(live);
  }

  lemma RankedDistinct(t: Table, target: Id, now: u64)
    ensures |Ids(Ranked(t, target, now), IdOf)| == |Ranked(t, target, now)|
  {
    RankedFacts(t, target, now);
    StrictlyMeansDistinct(Ranked(t, target, now), DistanceTo(target));
    IdsCount(Ranked(t, target, now), IdOf);
  }

  lemma RankedIsLive(t: Table, target: Id, now: u64, id: Id)
    requires id in Ids(Ranked(t, target, now), IdOf)
    ensures id in IdsOf(Live(Copies(t), now))
  {
    var r, live := Ranked(t, target, now), Live(Copies(t), now);
    RankedFacts(t, target, now);
    var i :| 0 <= i < |r| && IdOf(r[i]) == id;
    assert r[i] in r;
    assert IdOf(live[Find(live, id).value]) == id;
  }

  lemma RankedHas(t: Table, target: Id, now: u64, id: Id)
    requires id in IdsOf(Live(Copies(t), now))
    ensures id in Ids(Ranked(t, target, now), IdOf)
  {
    var r, live := Ranked(t, target, now), Live(Copies(t), now);
    RankedFacts(t, target, now);
    var i :| 0 <= i < |live| && IdOf(live[i]) == id;
    assert HasId(r, live[i].id);
    var j :| 0 <= j < |r| && r[j].id == id;
    assert IdOf(r[j]) == id;
  }

  lemma ClosestOrdered(t: Table, target: Id, limit: nat, now: u64)
    ensures var r, live := Closest(t, target, limit, now), Live(Copies(t), now);
            && |r| == Min(limit, |IdsOf(live)|)
            && Strictly(r, DistanceTo(target))
            && (forall x :: x in r ==> Find(live, x.id).Some? && live[Find(live, x.id).value] == x)
  {
    RankedFacts(t, target, now);
    RankedCount(t, target, now);
    TruncateFacts(Ranked(t, target, now), limit, DistanceTo(target));
  }

  lemma TruncateFacts(s: seq<Contact>, limit: nat, near: Id -> int)
    requires Strictly(s, near)
    ensures |Truncate(s, limit)| == Min(limit, |s|) && Strictly(Truncate(s, limit), near)
    ensures forall x :: x in Truncate(s, limit) ==> x in s
  {
  }

  lemma ClosestNearest(t: Table, target: Id, limit: nat, now: u64, x: Contact, c: Contact)
    requires x in Closest(t, target, limit, now) && c in Live(Copies(t), now)
    requires !HasId(Closest(t, target, limit, now), c.id)
    ensures Distance(x.id, target) < Distance(c.id, target)
  {
    var all, live := Ranked(t, target, now), Live(Copies(t), now);
    RankedFacts(t, target, now);
    var l :| 0 <= l < |live| && live[l] == c;
    assert HasId(all, live[l].id);
    FrontIsNearer(all, limit, DistanceTo(target), x, c.id);
  }

  /**
   `closest` returns exactly the nearest distinct live ids, in order of distance:
   min(limit, distinct live ids) of them, every one nearer than every live id
   left out, each in the copy that comes first among buckets, replacements and
   protected contacts.
   */
  lemma ClosestFacts(t: Table, target: Id, limit: nat, now: u64)
    ensures var r, live := Closest(t, target, limit, now), Live(Copies(t), now);
            && |r| == Min(limit, |IdsOf(live)|)
            && Strictly(r, DistanceTo(target))
            && (forall x :: x in r ==> Find(live, x.id).Some? && live[Find(live, x.id).value] == x)
            && (forall x, c :: x in r && c in live && !HasId(r, c.id) ==>
                  Distance(x.id, target) < Distance(c.id, target))
  {
    ClosestOrdered(t, target, limit, now);
    var r, live := Closest(t, target, limit, now), Live(Copies(t), now);
    forall x, c | x in r && c in live && !HasId(r, c.id) ensures Distance(x.id, target) < Distance(c.id, target) {
      ClosestNearest(t, target, limit, now, x, c);
    }
  }

  lemma FrontIsNearer(all: seq<Contact>, limit: nat, near: Id -> int, x: Contact, id: Id)
    requires Strictly(all, near) && x in Truncate(all, limit) && HasId(all, id) && !HasId(Truncate(all, limit), id)
    ensures near(x.id) < near(id)
  {
    var r := Truncate(all, limit);
    var i :| 0 <= i < |r| && r[i] == x;
    var j :| 0 <= j < |all| && all[j].id == id;
    assert forall l :: 0 <= l < |r| ==> r[l] == all[l] && r[l].id != id;
    assert near(all[i].id) < near(all[j].id);
  }

  /** So a fresh announcement kept only by the protected list is hidden by an older copy in a bucket. */
  lemma OlderCopyHidesProtected(t: Table, target: Id, limit: nat, now: u64, x: Contact)
    requires x in Closest(t, target, limit, now)
    requires Find(Live(Flatten(t.buckets), now), x.id).Some?
    ensures x in Live(Flatten(t.buckets), now)
  {
    FirstCopy(t, target, limit, now, x);
    BucketCopyFirst(t, now, x.id);
  }

  lemma FirstCopy(t: Table, target: Id, limit: nat, now: u64, x: Contact)
    requires x in Closest(t, target, limit, now)
    ensures var live := Live(Copies(t), now);
            Find(live, x.id).Some? && live[Find(live, x.id).value] == x
  {
    ClosestOrdered(t, target, limit, now);
  }

  lemma BucketCopyFirst(t: Table, now: u64, id: Id)
    requires Find(Live(Flatten(t.buckets), now), id).Some?
    ensures var live, front := Live(Copies(t), now), Live(Flatten(t.buckets), now);
            Find(live, id) == Find(front, id) && live[Find(live, id).value] == front[Find(front, id).value]
  {
    var first, rest := Flatten(t.buckets), t.replacements + t.protected;
    assert Copies(t) == first + rest;
    LiveConcat(first, rest, now);
    FindInFront(Live(first, now), Live(rest, now), id);
  }

  lemma {:induction false} LiveConcat(a: seq<Contact>, b: seq<Contact>, now: u64)
    ensures Live(a + b, now) == Live(a, now) + Live(b, now)
  {
    if b == [] {
      assert a + b == a;
    } else {
      LiveConcat(a, b[..|b| - 1], now);
      assert (a + b)[..|a + b| - 1] == a + b[..|b| - 1];
    }
  }

  function PrefixOf(c: Contact): nat { c.prefix }

  // ----- the table as an object

  class RoutingTable {
    const local: Id
    const k: nat
    const replacementLimit: nat
    var buckets: seq<seq<Contact>>
    var replacements: seq<Contact>
    var protected: seq<Contact>

    function Value(): Table
      reads this
    {
      Table(local, k, replacementLimit, buckets, replacements, protected)
    }

    ghost predicate Valid()
      reads this
    {
      TableGood(Value())
    }

    constructor (local: Id, k: nat, replacementLimit: nat)
      ensures Valid() && Value() == EmptyTable(local, k, replacementLimit)
    {
      this.local, this.k, this.replacementLimit := local, Max(k, 1), replacementLimit;
      buckets := seq(BUCKETS, i => []);
      replacements, protected := [], [];
    }

    method AddReplacement(c: Contact) returns (added: bool)
      requires Valid() && c.id != local
      modifies this`replacements
      ensures Valid() && (Value(), added) == DhtTable.AddReplacement(old(Value()), c)
    {
      ReplacementGood(Value(), c);
      var existing := Find(replacements, c.id);
      if existing.Some? {
        added := Fresher(replacements[existing.value], c);
        if added {
          replacements := replacements[existing.value := c];
        }
        return;
      }
      if replacementLimit == 0 {
        return false;
      }
      replacements := replacements + [c];
      if |replacements| > replacementLimit {
        replacements := replacements[1..];
      }
      added := false;
    }

    method Insert(c: Contact, now: u64) returns (inserted: bool)
      requires Valid()
      modifies this
      ensures Valid() && (Value(), inserted) == DhtTable.Insert(old(Value()), c, now)
    {
      InsertGood(Value(), c, now);
      if c.id == local || c.expiresAt < now {
        return false;
      }
      BucketIsLog(local, c.id);
      var b := FindBucketIndex(local, c.id);
      var guarded := Find(protected, c.id);
      if guarded.Some? {
        inserted := Fresher(protected[guarded.value], c);
        protected := Refresh(protected, guarded.value, c);
        return;
      }
      var known := Find(buckets[b], c.id);
      if known.Some? {
        inserted := Fresher(buckets[b][known.value], c);
        buckets := buckets[b := Refresh(buckets[b], known.value, c)];
        return;
      }
      inserted := InsertUnknown(b, c);
    }

    method InsertUnknown(b: nat, c: Contact) returns (inserted: bool)
      requires Valid() && b < BUCKETS && AtHome(local, b, c) && Find(buckets[b], c.id).None?
      modifies this
      ensures Valid() && (Value(), inserted) == InsertNew(old(Value()), b, c)
    {
      InsertNewGood(Value(), b, c);
      var bucket := buckets[b];
      var same := CountPrefix(bucket, c.prefix);
      if |bucket| < k {
        if same < MAX_PER_PREFIX {
          buckets := buckets[b := bucket + [c]];
          return true;
        }
        inserted := AddReplacement(c);
        return;
      }
      var victim := Victim(bucket, c.prefix);
      if same < (k + 1) / 2 && victim.Some? {
        buckets := buckets[b := bucket[victim.value := c]];
        return true;
      }
      inserted := AddReplacement(c);
    }

    method Protect(c: Contact, now: u64) returns (guarded: bool)
      requires Valid()
      modifies this`protected
      ensures Valid() && (Value(), guarded) == DhtTable.Protect(old(Value()), c, now)
    {
      ProtectGood(Value(), c, now);
      if c.id == local || c.expiresAt < now {
        return false;
      }
      var existing := Find(protected, c.id);
      if existing.Some? {
        guarded := Fresher(protected[existing.value], c);
        protected := Refresh(protected, existing.value, c);
        return;
      }
      if |protected| >= MAX_PROTECTED {
        SortFacts(protected, Expiry);
        protected := SortBy(protected, Expiry)[1..];
      }
      protected := protected + [c];
      guarded := true;
    }

    method ExpireAll(now: u64)
      requires Valid()
      modifies this
      ensures Valid() && Value() == DhtTable.Expire(old(Value()), now)
    {
      ExpireGood(Value(), now);
      for b := 0 to |buckets|
        invariant |buckets| == |old(buckets)|
        invariant forall i :: 0 <= i < b ==> buckets[i] == Live(old(buckets)[i], now)
        invariant forall i :: b <= i < |buckets| ==> buckets[i] == old(buckets)[i]
        invariant replacements == old(replacements) && protected == old(protected)
      {
        buckets := buckets[b := Live(buckets[b], now)];
      }
      replacements := Live(replacements, now);
      protected := Live(protected, now);
      assert buckets == DhtTable.Expire(old(Value()), now).buckets;
    }

    /** `closest_diverse`: distinct live ids, over as many network prefixes as the limit allows. */
    method ClosestDiverse(target: Id, limit: nat, now: u64) returns (selected: seq<Contact>)
      ensures selected == Diverse(Ranked(Value(), target, now), limit, IdOf, PrefixOf)
      ensures |selected| == Min(limit, |IdsOf(Live(Copies(Value()), now))|) && DistinctIds(selected)
      ensures |Prefixes(selected, PrefixOf)| == Min(limit, |Prefixes(Ranked(Value(), target, now), PrefixOf)|)
    {
      var ranked := Ranked(Value(), target, now);
      RankedFacts(Value(), target, now);
      RankedCount(Value(), target, now);
      StrictlyMeansDistinct(ranked, DistanceTo(target));
      selected := SelectDiverse(ranked, limit, IdOf, PrefixOf);
      DiverseFacts(ranked, limit, IdOf, PrefixOf);
    }
  }
}

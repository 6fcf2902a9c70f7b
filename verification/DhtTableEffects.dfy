/**
 The routing table said over what its buckets, replacements and protected list
 hold: which contacts a search returns, and what each change keeps and drops.
 */
module DhtTableEffects {
  import opened Machine
  import opened Sorting
  import opened NodeIds
  import opened DiverseSelection
  import opened DhtTable
  import opened DhtRouting

  // ----- what the table holds

  ghost predicate InBuckets(t: Table, c: Contact) { exists b :: 0 <= b < |t.buckets| && c in t.buckets[b] }

  ghost predicate HasLive(s: seq<Contact>, id: Id, now: u64) {
    exists i :: 0 <= i < |s| && s[i].id == id && s[i].expiresAt >= now
  }

  ghost predicate BucketsHaveLive(t: Table, id: Id, now: u64) {
    exists b :: 0 <= b < |t.buckets| && HasLive(t.buckets[b], id, now)
  }

  ghost predicate TableHasLive(t: Table, id: Id, now: u64) {
    BucketsHaveLive(t, id, now) || HasLive(t.replacements, id, now) || HasLive(t.protected, id, now)
  }

  /** A bucket's copy goes before a replacement, and a replacement before a protected contact. */
  ghost predicate PreferredCopy(t: Table, x: Contact, now: u64) {
    if BucketsHaveLive(t, x.id, now) then InBuckets(t, x)
    else if HasLive(t.replacements, x.id, now) then x in t.replacements
    else x in t.protected
  }

  lemma {:induction false} FlattenHolds(buckets: seq<seq<Contact>>, c: Contact)
    ensures c in Flatten(buckets) <==> exists b :: 0 <= b < |buckets| && c in buckets[b]
  {
    if buckets != [] {
      var before, last := buckets[..|buckets| - 1], |buckets| - 1;
      FlattenHolds(before, c);
      if b :| 0 <= b < |before| && c in before[b] {
        assert c in buckets[b];
      }
      if b :| 0 <= b < |buckets| && c in buckets[b] {
        assert b < last ==> c in before[b];
      }
    }
  }

  lemma HasLiveIff(s: seq<Contact>, id: Id, now: u64)
    ensures HasLive(s, id, now) <==> HasId(Live(s, now), id)
  {
    LiveFacts(s, now);
    if i :| 0 <= i < |s| && s[i].id == id && s[i].expiresAt >= now {
      assert s[i] in Live(s, now);
      var j :| 0 <= j < |Live(s, now)| && Live(s, now)[j] == s[i];
    }
    if j :| 0 <= j < |Live(s, now)| && Live(s, now)[j].id == id {
      assert Live(s, now)[j] in s;
      var i :| 0 <= i < |s| && s[i] == Live(s, now)[j];
    }
  }

  lemma BucketsHaveLiveIff(t: Table, id: Id, now: u64)
    ensures BucketsHaveLive(t, id, now) <==> HasId(Live(Flatten(t.buckets), now), id)
  {
    var all := Flatten(t.buckets);
    HasLiveIff(all, id, now);
    if b, i :| 0 <= b < |t.buckets| && 0 <= i < |t.buckets[b]|
               && t.buckets[b][i].id == id && t.buckets[b][i].expiresAt >= now {
      FlattenHolds(t.buckets, t.buckets[b][i]);
      var j :| 0 <= j < |all| && all[j] == t.buckets[b][i];
    }
    if j :| 0 <= j < |all| && all[j].id == id && all[j].expiresAt >= now {
      FlattenHolds(t.buckets, all[j]);
      var b :| 0 <= b < |t.buckets| && all[j] in t.buckets[b];
      var i :| 0 <= i < |t.buckets[b]| && t.buckets[b][i] == all[j];
    }
  }

  lemma LiveCopies(t: Table, now: u64)
    ensures Live(Copies(t), now)
            == Live(Flatten(t.buckets), now) + Live(t.replacements, now) + Live(t.protected, now)
  {
    LiveConcat(Flatten(t.buckets) + t.replacements, t.protected, now);
    LiveConcat(Flatten(t.buckets), t.replacements, now);
  }

  lemma HasIdConcat(a: seq<Contact>, b: seq<Contact>, id: Id)
    ensures HasId(a + b, id) <==> HasId(a, id) || HasId(b, id)
  {
    if i :| 0 <= i < |a| && a[i].id == id {
      assert (a + b)[i].id == id;
    }
    if i :| 0 <= i < |b| && b[i].id == id {
      assert (a + b)[|a| + i].id == id;
    }
  }

  lemma TableHasLiveIff(t: Table, id: Id, now: u64)
    ensures TableHasLive(t, id, now) <==> HasId(Live(Copies(t), now), id)
  {
    LiveCopies(t, now);
    BucketsHaveLiveIff(t, id, now);
    HasLiveIff(t.replacements, id, now);
    HasLiveIff(t.protected, id, now);
    HasIdConcat(Live(Flatten(t.buckets), now), Live(t.replacements, now), id);
    HasIdConcat(Live(Flatten(t.buckets), now) + Live(t.replacements, now), Live(t.protected, now), id);
  }

  /** The first copy of three lists is in the first list that has one. */
  lemma FirstOfThree(a: seq<Contact>, b: seq<Contact>, c: seq<Contact>, id: Id)
    requires Find(a + b + c, id).Some?
    ensures var x := (a + b + c)[Find(a + b + c, id).value];
            if HasId(a, id) then x in a else if HasId(b, id) then x in b else x in c
  {
    var all := a + b + c;
    var i := Find(all, id).value;
    if HasId(a, id) {
      var j :| 0 <= j < |a| && a[j].id == id;
      assert all[j].id == id;
    } else if HasId(b, id) {
      var j :| 0 <= j < |b| && b[j].id == id;
      assert all[|a| + j].id == id;
    }
  }

  lemma FirstIsPreferred(t: Table, now: u64, x: Contact)
    requires var live := Live(Copies(t), now);
             Find(live, x.id).Some? && live[Find(live, x.id).value] == x
    ensures x.expiresAt >= now && PreferredCopy(t, x, now)
  {
    LiveCopies(t, now);
    BucketsHaveLiveIff(t, x.id, now);
    HasLiveIff(t.replacements, x.id, now);
    var a, b, c := Live(Flatten(t.buckets), now), Live(t.replacements, now), Live(t.protected, now);
    FirstOfThree(a, b, c, x.id);
    LiveFacts(Copies(t), now);
    LiveFacts(Flatten(t.buckets), now);
    LiveFacts(t.replacements, now);
    LiveFacts(t.protected, now);
    FlattenHolds(t.buckets, x);
  }

  /** The ids with a live copy anywhere in the table. */
  ghost function LiveIds(t: Table, now: u64): set<Id> {
    (set b, i | 0 <= b < |t.buckets| && 0 <= i < |t.buckets[b]| && t.buckets[b][i].expiresAt >= now
       :: t.buckets[b][i].id)
    + (set i | 0 <= i < |t.replacements| && t.replacements[i].expiresAt >= now :: t.replacements[i].id)
    + (set i | 0 <= i < |t.protected| && t.protected[i].expiresAt >= now :: t.protected[i].id)
  }

  lemma LiveIdsAre(t: Table, now: u64)
    ensures IdsOf(Live(Copies(t), now)) == LiveIds(t, now)
    ensures forall id :: id in LiveIds(t, now) <==> TableHasLive(t, id, now)
  {
    forall id ensures id in LiveIds(t, now) <==> TableHasLive(t, id, now) {}
    var live := Live(Copies(t), now);
    forall id ensures id in IdsOf(live) <==> HasId(live, id) {
      if id in IdsOf(live) {
        var i :| 0 <= i < |live| && IdOf(live[i]) == id;
      }
      if i :| 0 <= i < |live| && live[i].id == id {
        assert IdOf(live[i]) == id;
      }
    }
    forall id ensures id in IdsOf(live) <==> id in LiveIds(t, now) {
      TableHasLiveIff(t, id, now);
    }
  }

  /**
   `closest`, over the table: min(limit, ids with a live copy) contacts, in order
   of distance, each nearer than every such id left out, and each the live copy
   that the table prefers.
   */
  lemma ClosestOfTable(t: Table, target: Id, limit: nat, now: u64)
    ensures var r := Closest(t, target, limit, now);
            && |r| == Min(limit, |LiveIds(t, now)|)
            && (forall i, j :: 0 <= i < j < |r| ==> Distance(r[i].id, target) < Distance(r[j].id, target))
            && (forall x :: x in r ==> x.expiresAt >= now && PreferredCopy(t, x, now))
            && (forall x, id :: x in r && TableHasLive(t, id, now) && !HasId(r, id) ==>
                  Distance(x.id, target) < Distance(id, target))
  {
    var r, live := Closest(t, target, limit, now), Live(Copies(t), now);
    ClosestFacts(t, target, limit, now);
    LiveIdsAre(t, now);
    forall x | x in r ensures x.expiresAt >= now && PreferredCopy(t, x, now) {
      FirstIsPreferred(t, now, x);
    }
    forall x, id | x in r && TableHasLive(t, id, now) && !HasId(r, id)
      ensures Distance(x.id, target) < Distance(id, target)
    {
      TableHasLiveIff(t, id, now);
      var i :| 0 <= i < |live| && live[i].id == id;
      assert live[i] in live;
    }
    forall i, j | 0 <= i < j < |r| ensures Distance(r[i].id, target) < Distance(r[j].id, target) {
      assert DistanceTo(target)(r[i].id) < DistanceTo(target)(r[j].id);
    }
  }

  // ----- what each change keeps and drops

  /** How many contacts have the prefix. */
  ghost function OfPrefix(s: seq<Contact>, prefix: nat): set<nat> { set i | 0 <= i < |s| && s[i].prefix == prefix }

  lemma {:induction false} CountPrefixIs(s: seq<Contact>, prefix: nat)
    ensures CountPrefix(s, prefix) == |OfPrefix(s, prefix)|
  {
    if s == [] {
      assert OfPrefix(s, prefix) == {};
    } else {
      var before, last := s[..|s| - 1], |s| - 1;
      CountPrefixIs(before, prefix);
      assert OfPrefix(s, prefix) == OfPrefix(before, prefix) + if s[last].prefix == prefix then {last} else {};
    }
  }

  /** At least as new: announced later, or at the same time and lasting as long. */
  ghost predicate AtLeastAsNew(next: Contact, previous: Contact) {
    next.announcedAt > previous.announcedAt
    || (next.announcedAt == previous.announcedAt && next.expiresAt >= previous.expiresAt)
  }

  /** The list's contact with the id of `c` is replaced by `c`, exactly when `c` is at least as new. */
  ghost predicate Renewed(s: seq<Contact>, c: Contact, next: seq<Contact>, renewed: bool) {
    exists i :: 0 <= i < |s| && s[i].id == c.id
                && (renewed <==> AtLeastAsNew(c, s[i])) && next == if renewed then s[i := c] else s
  }

  /** The replacement cache takes `c` at its end and lets the oldest go when it is over its limit. */
  ghost predicate CachedIn(s: seq<Contact>, c: Contact, limit: nat, next: seq<Contact>, answer: bool) {
    if HasId(s, c.id) then Renewed(s, c, next, answer)
    else
      && !answer
      && (limit == 0 ==> next == s)
      && (limit > 0 ==> next == if |s| < limit then s + [c] else s[1..] + [c])
  }

  lemma CacheEffect(t: Table, c: Contact)
    requires t.replacementLimit == 0 || |t.replacements| <= t.replacementLimit
    ensures var (next, answer) := AddReplacement(t, c);
            next == t.(replacements := next.replacements)
            && CachedIn(t.replacements, c, t.replacementLimit, next.replacements, answer)
  {
    var existing := Find(t.replacements, c.id);
    if existing.Some? {
      assert t.replacements[existing.value].id == c.id;
    } else if t.replacementLimit > 0 && |t.replacements| >= t.replacementLimit {
      assert (t.replacements + [c])[1..] == t.replacements[1..] + [c];
    }
  }

  /** A full bucket gives up the longest-announced contact of another prefix. */
  ghost predicate GivesUp(bucket: seq<Contact>, c: Contact, i: nat, next: seq<Contact>) {
    && i < |bucket| && bucket[i].prefix != c.prefix && next == bucket[i := c]
    && (forall j :: 0 <= j < |bucket| && bucket[j].prefix != c.prefix ==>
          bucket[i].announcedAt <= bucket[j].announcedAt)
  }

  /**
   Where an announcement goes. One of the node itself or expired goes nowhere; one
   of a protected or known id renews that copy; a new one takes a free place of its
   bucket while fewer than four share its prefix, or in a full bucket the place of
   a contact of another prefix while fewer than half share it, and is otherwise
   only cached.
   */
  ghost predicate Placed(t: Table, c: Contact, now: u64, next: Table, answer: bool)
    requires |t.buckets| == BUCKETS
  {
    if c.id == t.local || c.expiresAt < now then next == t && !answer
    else if HasId(t.protected, c.id) then
      next == t.(protected := next.protected) && Renewed(t.protected, c, next.protected, answer)
    else
      var b := BucketIndex(t.local, c.id);
      b < BUCKETS && |next.buckets| == BUCKETS &&
        var bucket, same := t.buckets[b], |OfPrefix(t.buckets[b], c.prefix)|;
        var filed := t.(buckets := t.buckets[b := next.buckets[b]]);
        if HasId(bucket, c.id) then next == filed && Renewed(bucket, c, next.buckets[b], answer)
        else if |bucket| < t.k && same < 4 then next == filed && answer && next.buckets[b] == bucket + [c]
        else if |bucket| >= t.k && same < (t.k + 1) / 2 && same < |bucket| then
          next == filed && answer && exists i :: GivesUp(bucket, c, i, next.buckets[b])
        else
          && next == t.(replacements := next.replacements)
          && CachedIn(t.replacements, c, t.replacementLimit, next.replacements, answer)
  }

  lemma FoundRenews(s: seq<Contact>, c: Contact)
    requires Find(s, c.id).Some?
    ensures HasId(s, c.id)
    ensures var i := Find(s, c.id).value; Renewed(s, c, Refresh(s, i, c), Fresher(s[i], c))
  {
  }

  lemma {:induction false} AllSamePrefix(s: seq<Contact>, prefix: nat)
    ensures |OfPrefix(s, prefix)| <= |s|
    ensures |OfPrefix(s, prefix)| == |s| <==> forall i :: 0 <= i < |s| ==> s[i].prefix == prefix
  {
    if s == [] {
      assert OfPrefix(s, prefix) == {};
    } else {
      var before, last := s[..|s| - 1], |s| - 1;
      AllSamePrefix(before, prefix);
      assert OfPrefix(s, prefix) == OfPrefix(before, prefix) + if s[last].prefix == prefix then {last} else {};
      assert forall i :: 0 <= i < last ==> before[i] == s[i];
    }
  }

  lemma InsertEffect(t: Table, c: Contact, now: u64)
    requires TableGood(t)
    ensures var (next, answer) := DhtTable.Insert(t, c, now);
            Placed(t, c, now, next, answer)
  {
    if c.id != t.local && c.expiresAt >= now {
      BucketIsLog(t.local, c.id);
      var b := BucketIndex(t.local, c.id);
      if Find(t.protected, c.id).Some? {
        FoundRenews(t.protected, c);
      } else if Find(t.buckets[b], c.id).Some? {
        FoundRenews(t.buckets[b], c);
      } else {
        NewEffect(t, b, c);
      }
    }
  }

  /** The same of an id that is neither protected nor in its bucket. */
  lemma NewEffect(t: Table, b: nat, c: Contact)
    requires TableGood(t) && b < BUCKETS
    ensures var (next, answer) := InsertNew(t, b, c);
            var bucket, same := t.buckets[b], |OfPrefix(t.buckets[b], c.prefix)|;
            |next.buckets| == BUCKETS &&
              var filed := t.(buckets := t.buckets[b := next.buckets[b]]);
              if |bucket| < t.k && same < 4 then next == filed && answer && next.buckets[b] == bucket + [c]
              else if |bucket| >= t.k && same < (t.k + 1) / 2 && same < |bucket| then
                next == filed && answer && exists i :: GivesUp(bucket, c, i, next.buckets[b])
              else
                && next == t.(replacements := next.replacements)
                && CachedIn(t.replacements, c, t.replacementLimit, next.replacements, answer)
  {
    var bucket := t.buckets[b];
    CountPrefixIs(bucket, c.prefix);
    AllSamePrefix(bucket, c.prefix);
    if |bucket| >= t.k && CountPrefix(bucket, c.prefix) < (t.k + 1) / 2 && Victim(bucket, c.prefix).Some? {
      VictimGivesUp(bucket, c);
    } else {
      CacheEffect(t, c);
    }
  }

  lemma VictimGivesUp(bucket: seq<Contact>, c: Contact)
    requires Victim(bucket, c.prefix).Some?
    ensures var i := Victim(bucket, c.prefix).value;
            GivesUp(bucket, c, i, bucket[i := c])
  {
  }

  /**
   Protecting a contact renews the copy of its id, or adds it, and at sixteen gives
   up one that expires first.
   */
  ghost predicate Guarded(s: seq<Contact>, c: Contact, next: seq<Contact>, answer: bool) {
    if HasId(s, c.id) then Renewed(s, c, next, answer)
    else if |s| < 16 then answer && next == s + [c]
    else
      answer && |next| == |s| && next[|s| - 1] == c
      && exists gone ::
           && gone in s && (forall x :: x in s ==> gone.expiresAt <= x.expiresAt)
           && multiset(next) == multiset(s) - multiset{gone} + multiset{c}
  }

  lemma ProtectEffect(t: Table, c: Contact, now: u64)
    ensures var (next, answer) := Protect(t, c, now);
            if c.id == t.local || c.expiresAt < now then next == t && !answer
            else next == t.(protected := next.protected) && Guarded(t.protected, c, next.protected, answer)
  {
    if c.id != t.local && c.expiresAt >= now {
      var existing := Find(t.protected, c.id);
      if existing.Some? {
        FoundRenews(t.protected, c);
      } else if |t.protected| >= MAX_PROTECTED {
        SoonestGoes(t.protected, c);
      }
    }
  }

  lemma SoonestGoes(s: seq<Contact>, c: Contact)
    requires |s| >= MAX_PROTECTED
    ensures var next := SortBy(s, Expiry)[1..] + [c];
            exists gone ::
              && gone in s && (forall x :: x in s ==> gone.expiresAt <= x.expiresAt)
              && |next| == |s| && multiset(next) == multiset(s) - multiset{gone} + multiset{c}
  {
    var sorted := SortBy(s, Expiry);
    SoonestFirst(s);
    FirstDropped(sorted, c);
    SortFacts(s, Expiry);
  }

  lemma SoonestFirst(s: seq<Contact>)
    requires s != []
    ensures |SortBy(s, Expiry)| == |s| && SortBy(s, Expiry)[0] in s
    ensures forall x :: x in s ==> SortBy(s, Expiry)[0].expiresAt <= x.expiresAt
  {
    var sorted := SortBy(s, Expiry);
    SortFacts(s, Expiry);
    SortMembers(s, Expiry);
    assert sorted[0] in sorted;
    forall x | x in s ensures sorted[0].expiresAt <= x.expiresAt {
      assert x in sorted;
      var j :| 0 <= j < |sorted| && sorted[j] == x;
      assert Expiry(sorted[0]) <= Expiry(sorted[j]);
    }
  }

  lemma FirstDropped(s: seq<Contact>, c: Contact)
    requires s != []
    ensures multiset(s[1..] + [c]) == multiset(s) - multiset{s[0]} + multiset{c}
  {
    assert s == [s[0]] + s[1..];
  }

  /** Expiry keeps exactly what is live, where it was. */
  lemma ExpireEffect(t: Table, now: u64, c: Contact)
    ensures var next := Expire(t, now);
            && |next.buckets| == |t.buckets|
            && (forall b :: 0 <= b < |t.buckets| ==>
                  (c in next.buckets[b] <==> c in t.buckets[b] && c.expiresAt >= now))
            && (c in next.replacements <==> c in t.replacements && c.expiresAt >= now)
            && (c in next.protected <==> c in t.protected && c.expiresAt >= now)
  {
    var next := Expire(t, now);
    forall b | 0 <= b < |t.buckets| ensures c in next.buckets[b] <==> c in t.buckets[b] && c.expiresAt >= now {
      LiveFacts(t.buckets[b], now);
    }
    LiveFacts(t.replacements, now);
    LiveFacts(t.protected, now);
  }
}

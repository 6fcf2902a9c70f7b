/**
 How many contacts of one network prefix a bucket of the routing table holds:
 the cap every insertion respects, and the refresh that does not look at it.
 */
module DhtPrefixCap {
  import opened Machine
  import opened NodeIds
  import opened DhtTable

  function PrefixCap(k: nat): nat { Max(MAX_PER_PREFIX, (k + 1) / 2) }

  lemma {:induction false} CountUpdate(s: seq<Contact>, i: nat, c: Contact, p: nat)
    requires i < |s|
    ensures CountPrefix(s[i := c], p)
            == CountPrefix(s, p) - (if s[i].prefix == p then 1 else 0) + (if c.prefix == p then 1 else 0)
  {
    if i < |s| - 1 {
      CountUpdate(s[..|s| - 1], i, c, p);
      assert s[i := c][..|s| - 1] == s[..|s| - 1][i := c];
    } else {
      assert s[i := c][..|s| - 1] == s[..|s| - 1];
    }
  }

  lemma CountPush(s: seq<Contact>, c: Contact, p: nat)
    ensures CountPrefix(s + [c], p) == CountPrefix(s, p) + if c.prefix == p then 1 else 0
  {
    assert (s + [c])[..|s|] == s;
  }

  lemma {:induction false} CountLive(s: seq<Contact>, now: u64, p: nat)
    ensures CountPrefix(Live(s, now), p) <= CountPrefix(s, p)
  {
    if s != [] {
      CountLive(s[..|s| - 1], now, p);
      if s[|s| - 1].expiresAt >= now {
        CountPush(Live(s[..|s| - 1], now), s[|s| - 1], p);
      } else {
        assert Live(s, now) == Live(s[..|s| - 1], now);
      }
    }
  }

  ghost predicate Capped(k: nat, bucket: seq<Contact>) {
    forall p :: CountPrefix(bucket, p) <= PrefixCap(k)
  }

  ghost predicate AllCapped(t: Table) {
    |t.buckets| == BUCKETS && forall b :: 0 <= b < BUCKETS ==> Capped(t.k, t.buckets[b])
  }

  // ----- one step

  lemma LiveCapped(k: nat, bucket: seq<Contact>, now: u64)
    requires Capped(k, bucket)
    ensures Capped(k, Live(bucket, now))
  {
    forall p ensures CountPrefix(Live(bucket, now), p) <= PrefixCap(k) {
      CountLive(bucket, now, p);
    }
  }

  lemma PushCapped(k: nat, bucket: seq<Contact>, c: Contact)
    requires Capped(k, bucket) && CountPrefix(bucket, c.prefix) < MAX_PER_PREFIX
    ensures Capped(k, bucket + [c])
  {
    forall p ensures CountPrefix(bucket + [c], p) <= PrefixCap(k) {
      CountPush(bucket, c, p);
    }
  }

  /** Replacing a contact keeps the cap unless the new one brings another prefix that is already at the cap. */
  lemma UpdateCappedIff(k: nat, bucket: seq<Contact>, i: nat, c: Contact)
    requires Capped(k, bucket) && i < |bucket|
    ensures Capped(k, bucket[i := c])
            <==> !(bucket[i].prefix != c.prefix && CountPrefix(bucket, c.prefix) >= PrefixCap(k))
  {
    var next := bucket[i := c];
    CountUpdate(bucket, i, c, c.prefix);
    if !(bucket[i].prefix != c.prefix && CountPrefix(bucket, c.prefix) >= PrefixCap(k)) {
      forall p ensures CountPrefix(next, p) <= PrefixCap(k) {
        CountUpdate(bucket, i, c, p);
      }
    }
  }

  lemma SetBucketCappedIff(t: Table, b: nat, bucket: seq<Contact>)
    requires AllCapped(t) && b < BUCKETS
    ensures AllCapped(SetBucket(t, b, bucket)) <==> Capped(t.k, bucket)
  {
    var next := SetBucket(t, b, bucket);
    assert next.buckets[b] == bucket;
    assert forall d :: 0 <= d < BUCKETS && d != b ==> next.buckets[d] == t.buckets[d];
  }

  lemma NewCapped(t: Table, b: nat, c: Contact)
    requires AllCapped(t) && b < BUCKETS
    ensures AllCapped(InsertNew(t, b, c).0)
  {
    var bucket := t.buckets[b];
    var same, victim := CountPrefix(bucket, c.prefix), Victim(bucket, c.prefix);
    if |bucket| < t.k && same < MAX_PER_PREFIX {
      PushCapped(t.k, bucket, c);
      SetBucketCappedIff(t, b, bucket + [c]);
    } else if |bucket| >= t.k && same < (t.k + 1) / 2 && victim.Some? {
      UpdateCappedIff(t.k, bucket, victim.value, c);
      SetBucketCappedIff(t, b, bucket[victim.value := c]);
    }
  }

  /** A fresher announcement of an unprotected bucket contact, from another prefix that is already at the cap. */
  predicate MovesOntoCap(t: Table, op: Op)
    requires |t.buckets| == BUCKETS
  {
    && op.InsertOp? && op.contact.id != t.local && op.contact.expiresAt >= op.now
    && Find(t.protected, op.contact.id).None?
    && var bucket := t.buckets[HomeOf(t.local, op.contact.id)];
       var known := Find(bucket, op.contact.id);
       && known.Some? && Fresher(bucket[known.value], op.contact)
       && bucket[known.value].prefix != op.contact.prefix
       && CountPrefix(bucket, op.contact.prefix) >= PrefixCap(t.k)
  }

  function HomeOf(local: Id, id: Id): (b: nat)
    requires id != local
    ensures b < BUCKETS
  {
    BucketIsLog(local, id);
    BucketIndex(local, id)
  }

  lemma InsertCappedIff(t: Table, c: Contact, now: u64)
    requires AllCapped(t)
    ensures AllCapped(Insert(t, c, now).0) <==> !MovesOntoCap(t, InsertOp(c, now))
  {
    if c.id != t.local && c.expiresAt >= now && Find(t.protected, c.id).None? {
      var b := HomeOf(t.local, c.id);
      var known := Find(t.buckets[b], c.id);
      if known.Some? {
        UpdateCappedIff(t.k, t.buckets[b], known.value, c);
        SetBucketCappedIff(t, b, Refresh(t.buckets[b], known.value, c));
      } else {
        NewCapped(t, b, c);
      }
    }
  }

  /** An operation keeps every bucket within the cap exactly when it does not move an id onto a full prefix. */
  lemma StepCappedIff(t: Table, op: Op)
    requires AllCapped(t)
    ensures AllCapped(Step(t, op)) <==> !MovesOntoCap(t, op)
  {
    match op {
      case InsertOp(c, now) => InsertCappedIff(t, c, now);
      case ProtectOp(c, now) =>
      case ExpireOp(now) =>
        forall b | 0 <= b < BUCKETS ensures Capped(t.k, Live(t.buckets[b], now)) {
          LiveCapped(t.k, t.buckets[b], now);
        }
    }
  }

  // ----- whole runs

  ghost predicate NeverMovesOntoCap(local: Id, k: nat, replacementLimit: nat, ops: seq<Op>) {
    forall i :: 0 <= i < |ops| ==> !MovesOntoCap(Run(local, k, replacementLimit, ops[..i]), ops[i])
  }

  lemma {:induction false} RunCapped(local: Id, k: nat, replacementLimit: nat, ops: seq<Op>, j: nat)
    requires NeverMovesOntoCap(local, k, replacementLimit, ops) && j <= |ops|
    ensures AllCapped(Run(local, k, replacementLimit, ops[..j]))
  {
    if j == 0 {
      assert forall p :: CountPrefix([], p) == 0;
    } else {
      RunCapped(local, k, replacementLimit, ops, j - 1);
      assert ops[..j][..j - 1] == ops[..j - 1];
      StepCappedIff(Run(local, k, replacementLimit, ops[..j - 1]), ops[j - 1]);
    }
  }

  /**
   No bucket ever holds more than max(4, ceil(k / 2)) contacts of one prefix,
   exactly when no operation of the run moves an id onto a full prefix.
   */
  lemma RunCappedIff(local: Id, k: nat, replacementLimit: nat, ops: seq<Op>)
    ensures (forall j :: 0 <= j <= |ops| ==> AllCapped(Run(local, k, replacementLimit, ops[..j])))
            <==> NeverMovesOntoCap(local, k, replacementLimit, ops)
  {
    if NeverMovesOntoCap(local, k, replacementLimit, ops) {
      forall j | 0 <= j <= |ops| ensures AllCapped(Run(local, k, replacementLimit, ops[..j])) {
        RunCapped(local, k, replacementLimit, ops, j);
      }
    }
    if forall j :: 0 <= j <= |ops| ==> AllCapped(Run(local, k, replacementLimit, ops[..j])) {
      forall i | 0 <= i < |ops| ensures !MovesOntoCap(Run(local, k, replacementLimit, ops[..i]), ops[i]) {
        CappedMeansNoMove(local, k, replacementLimit, ops, i);
      }
    }
  }

  lemma CappedMeansNoMove(local: Id, k: nat, replacementLimit: nat, ops: seq<Op>, i: nat)
    requires i < |ops|
    requires AllCapped(Run(local, k, replacementLimit, ops[..i]))
    requires AllCapped(Run(local, k, replacementLimit, ops[..i + 1]))
    ensures !MovesOntoCap(Run(local, k, replacementLimit, ops[..i]), ops[i])
  {
    assert ops[..i + 1][..i] == ops[..i];
    StepCappedIff(Run(local, k, replacementLimit, ops[..i]), ops[i]);
  }

  // ----- ids that keep their prefix

  /** Every contact of the bucket announces the prefix `home` gives its id. */
  ghost predicate Settled(home: Id -> nat, bucket: seq<Contact>) {
    forall i :: 0 <= i < |bucket| ==> bucket[i].prefix == home(bucket[i].id)
  }

  ghost predicate AllSettled(home: Id -> nat, t: Table) {
    |t.buckets| == BUCKETS && forall b :: 0 <= b < BUCKETS ==> Settled(home, t.buckets[b])
  }

  ghost predicate OpSettled(home: Id -> nat, op: Op) {
    op.InsertOp? ==> op.contact.prefix == home(op.contact.id)
  }

  lemma LiveSettled(home: Id -> nat, bucket: seq<Contact>, now: u64)
    requires Settled(home, bucket)
    ensures Settled(home, Live(bucket, now))
  {
    LiveFacts(bucket, now);
    forall i | 0 <= i < |Live(bucket, now)| ensures Live(bucket, now)[i].prefix == home(Live(bucket, now)[i].id) {
      assert Live(bucket, now)[i] in bucket;
    }
  }

  lemma StepSettled(home: Id -> nat, t: Table, op: Op)
    requires AllSettled(home, t) && OpSettled(home, op)
    ensures AllSettled(home, Step(t, op))
  {
    if op.ExpireOp? {
      forall b | 0 <= b < BUCKETS ensures Settled(home, Live(t.buckets[b], op.now)) {
        LiveSettled(home, t.buckets[b], op.now);
      }
    }
  }

  lemma {:induction false} RunSettled(home: Id -> nat, local: Id, k: nat, replacementLimit: nat, ops: seq<Op>, j: nat)
    requires j <= |ops| && forall i :: 0 <= i < |ops| ==> OpSettled(home, ops[i])
    ensures AllSettled(home, Run(local, k, replacementLimit, ops[..j]))
  {
    if j > 0 {
      RunSettled(home, local, k, replacementLimit, ops, j - 1);
      assert ops[..j][..j - 1] == ops[..j - 1];
      StepSettled(home, Run(local, k, replacementLimit, ops[..j - 1]), ops[j - 1]);
    }
  }

  /** While no id changes its network prefix, every reachable table keeps the cap. */
  lemma PrefixesStayCapped(home: Id -> nat, local: Id, k: nat, replacementLimit: nat, ops: seq<Op>)
    requires forall i :: 0 <= i < |ops| ==> OpSettled(home, ops[i])
    ensures AllCapped(Run(local, k, replacementLimit, ops))
  {
    forall i | 0 <= i < |ops| ensures !MovesOntoCap(Run(local, k, replacementLimit, ops[..i]), ops[i]) {
      RunSettled(home, local, k, replacementLimit, ops, i);
    }
    RunCapped(local, k, replacementLimit, ops, |ops|);
    assert ops[..|ops|] == ops;
  }

  // ----- a run that exceeds the cap

  function Inserts(contacts: seq<Contact>): seq<Op> {
    if contacts == [] then []
    else Inserts(contacts[..|contacts| - 1]) + [InsertOp(contacts[|contacts| - 1], 0)]
  }

  /** Contacts of one bucket that are all filed: each is new, and fewer than four of its prefix come before it. */
  ghost predicate Files(local: Id, k: nat, b: nat, contacts: seq<Contact>) {
    contacts == [] ||
    var rest, c := contacts[..|contacts| - 1], contacts[|contacts| - 1];
    && Files(local, k, b, rest)
    && |rest| < k && c.id != local && BucketIndex(local, c.id) == b
    && (forall i :: 0 <= i < |rest| ==> rest[i].id != c.id)
    && CountPrefix(rest, c.prefix) < MAX_PER_PREFIX
  }

  lemma {:induction false} FilledBucket(local: Id, k: nat, replacementLimit: nat, b: nat, contacts: seq<Contact>)
    requires Files(local, k, b, contacts) && b < BUCKETS
    ensures Run(local, k, replacementLimit, Inserts(contacts))
            == SetBucket(EmptyTable(local, k, replacementLimit), b, contacts)
  {
    if contacts == [] {
      NothingFiled(local, k, replacementLimit, b);
    } else {
      var rest := contacts[..|contacts| - 1];
      FilledBucket(local, k, replacementLimit, b, rest);
      FillOne(local, k, replacementLimit, b, contacts, Inserts(rest));
    }
  }

  lemma NothingFiled(local: Id, k: nat, replacementLimit: nat, b: nat)
    requires b < BUCKETS
    ensures SetBucket(EmptyTable(local, k, replacementLimit), b, []) == EmptyTable(local, k, replacementLimit)
  {
    var empty := EmptyTable(local, k, replacementLimit).buckets;
    assert empty[b := []] == empty;
  }

  lemma FillOne(local: Id, k: nat, replacementLimit: nat, b: nat, contacts: seq<Contact>, before: seq<Op>)
    requires contacts != [] && Files(local, k, b, contacts) && b < BUCKETS
    requires Run(local, k, replacementLimit, before)
             == SetBucket(EmptyTable(local, k, replacementLimit), b, contacts[..|contacts| - 1])
    ensures Run(local, k, replacementLimit, before + [InsertOp(contacts[|contacts| - 1], 0)])
            == SetBucket(EmptyTable(local, k, replacementLimit), b, contacts)
  {
    RunSnoc(local, k, replacementLimit, before, InsertOp(contacts[|contacts| - 1], 0));
    FilesLast(EmptyTable(local, k, replacementLimit), b, contacts);
  }

  lemma RunSnoc(local: Id, k: nat, replacementLimit: nat, ops: seq<Op>, op: Op)
    ensures Run(local, k, replacementLimit, ops + [op]) == Step(Run(local, k, replacementLimit, ops), op)
  {
    assert (ops + [op])[..|ops|] == ops;
  }

  lemma FilesLast(empty: Table, b: nat, contacts: seq<Contact>)
    requires |empty.buckets| == BUCKETS && b < BUCKETS && empty.protected == []
    requires Files(empty.local, empty.k, b, contacts) && contacts != []
    ensures var rest, c := contacts[..|contacts| - 1], contacts[|contacts| - 1];
            Insert(SetBucket(empty, b, rest), c, 0).0 == SetBucket(empty, b, contacts)
  {
    var rest, c := contacts[..|contacts| - 1], contacts[|contacts| - 1];
    InsertsOne(SetBucket(empty, b, rest), b, c);
    assert rest + [c] == contacts;
    assert empty.buckets[b := rest][b := contacts] == empty.buckets[b := contacts];
  }

  lemma InsertsOne(t: Table, b: nat, c: Contact)
    requires |t.buckets| == BUCKETS && b < BUCKETS && t.protected == []
    requires c.id != t.local && BucketIndex(t.local, c.id) == b && |t.buckets[b]| < t.k
    requires forall i :: 0 <= i < |t.buckets[b]| ==> t.buckets[b][i].id != c.id
    requires CountPrefix(t.buckets[b], c.prefix) < MAX_PER_PREFIX
    ensures Insert(t, c, 0).0 == SetBucket(t, b, t.buckets[b] + [c])
  {
  }

  /**
   Four contacts of prefix `p` and one of `q` are inserted into one bucket; a
   fresher announcement of the fifth from `p` then brings `p` to five, past the cap.
   */
  lemma MovedIdExceedsCap(
    local: Id, k: nat, replacementLimit: nat, b: nat, contacts: seq<Contact>, moved: Contact, p: nat)
    requires 5 <= k <= 8 && |contacts| == 5 && Files(local, k, b, contacts) && b < BUCKETS
    requires forall i :: 0 <= i < 4 ==> contacts[i].prefix == p
    requires contacts[4].prefix != p && moved.prefix == p && moved.id == contacts[4].id && Fresher(contacts[4], moved)
    ensures var t := Run(local, k, replacementLimit, Inserts(contacts) + [InsertOp(moved, 0)]);
            CountPrefix(t.buckets[b], p) == 5 && PrefixCap(k) == 4
  {
    FilledBucket(local, k, replacementLimit, b, contacts);
    RunSnoc(local, k, replacementLimit, Inserts(contacts), InsertOp(moved, 0));
    MovesFifth(EmptyTable(local, k, replacementLimit), b, contacts, moved);
    CountUpdate(contacts, 4, moved, p);
    FourOfFive(contacts, p);
  }

  lemma MovesFifth(empty: Table, b: nat, contacts: seq<Contact>, moved: Contact)
    requires |empty.buckets| == BUCKETS && b < BUCKETS && empty.protected == []
    requires |contacts| == 5 && Files(empty.local, empty.k, b, contacts)
    requires moved.id == contacts[4].id && Fresher(contacts[4], moved)
    ensures Insert(SetBucket(empty, b, contacts), moved, 0).0.buckets[b] == contacts[4 := moved]
  {
    LastIsNew(empty.local, empty.k, b, contacts);
    Refreshes(SetBucket(empty, b, contacts), b, 4, moved);
  }

  lemma LastIsNew(local: Id, k: nat, b: nat, contacts: seq<Contact>)
    requires contacts != [] && Files(local, k, b, contacts)
    ensures var last := contacts[|contacts| - 1];
            && last.id != local && BucketIndex(local, last.id) == b
            && forall i :: 0 <= i < |contacts| - 1 ==> contacts[i].id != last.id
  {
    var rest := contacts[..|contacts| - 1];
    assert forall i :: 0 <= i < |rest| ==> contacts[i] == rest[i];
  }

  lemma Refreshes(t: Table, b: nat, i: nat, c: Contact)
    requires |t.buckets| == BUCKETS && b < BUCKETS && t.protected == []
    requires c.id != t.local && BucketIndex(t.local, c.id) == b && i < |t.buckets[b]|
    requires t.buckets[b][i].id == c.id && Fresher(t.buckets[b][i], c)
    requires forall j :: 0 <= j < i ==> t.buckets[b][j].id != c.id
    ensures Insert(t, c, 0).0 == SetBucket(t, b, t.buckets[b][i := c])
  {
    assert Find(t.buckets[b], c.id) == Some(i);
  }

  lemma FourOfFive(s: seq<Contact>, p: nat)
    requires |s| == 5 && s[4].prefix != p && forall i :: 0 <= i < 4 ==> s[i].prefix == p
    ensures CountPrefix(s, p) == 4
  {
    AllOfPrefix(s[..4], p);
  }

  lemma {:induction false} AllOfPrefix(s: seq<Contact>, p: nat)
    requires forall i :: 0 <= i < |s| ==> s[i].prefix == p
    ensures CountPrefix(s, p) == |s|
  {
    if s != [] {
      AllOfPrefix(s[..|s| - 1], p);
    }
  }

  // ----- such contacts exist

  function Origin(): Id { Id(seq(WIDTH, i => 0)) }

  function High(n: byte): Id { Id([n] + seq(WIDTH - 1, i => 0)) }

  lemma {:induction false} XorWithZero(x: nat, bits: nat)
    requires x < Pow2(bits)
    ensures BitXor(0, x, bits) == x
  {
    if bits > 0 {
      XorWithZero(x / 2, bits - 1);
    }
  }

  lemma HighBucket(n: byte)
    requires n >= 128
    ensures High(n) != Origin() && BucketIndex(Origin(), High(n)) == 255
  {
    Pow2Byte(0);
    XorWithZero(n, 8);
    var d := Xor(Origin(), High(n));
    assert d[0] == ByteXor(Origin().bytes[0], High(n).bytes[0]) == n;
    assert High(n).bytes[0] != Origin().bytes[0];
  }

  /** The first four contacts announce prefix 1, the next ones prefix 2. */
  function Crowd(n: nat): (s: seq<Contact>)
    requires n <= 5
    ensures |s| == n
    ensures forall i :: 0 <= i < n ==> s[i].id == High(128 + i) && s[i].prefix == if i < 4 then 1 else 2
  {
    if n == 0 then []
    else Crowd(n - 1) + [Contact(High(127 + n), 0, 0, if n <= 4 then 1 else 2, 0)]
  }

  /** A concrete run with k = 8: bucket 255 ends with five contacts of prefix 1, where the cap is four. */
  lemma CapIsExceeded(replacementLimit: nat)
    ensures var ops := Inserts(Crowd(5)) + [InsertOp(Contact(High(132), 1, 1, 1, 0), 0)];
            var t := Run(Origin(), 8, replacementLimit, ops);
            CountPrefix(t.buckets[255], 1) == 5 && PrefixCap(8) == 4
  {
    CrowdFiles(5);
    MovedIdExceedsCap(Origin(), 8, replacementLimit, 255, Crowd(5), Contact(High(132), 1, 1, 1, 0), 1);
  }

  lemma {:induction false} CrowdFiles(n: nat)
    requires n <= 5
    ensures Files(Origin(), 8, 255, Crowd(n))
  {
    if n > 0 {
      CrowdFiles(n - 1);
      var rest := Crowd(n - 1);
      assert Crowd(n)[..n - 1] == rest;
      HighBucket(127 + n);
      forall i | 0 <= i < n - 1 ensures rest[i].id != High(127 + n) {
        HighDiffers(128 + i, 127 + n);
      }
      if n <= 4 {
        AllOfPrefix(rest, 1);
      } else {
        NoneOfPrefix(rest, 2);
      }
    }
  }

  lemma HighDiffers(m: byte, n: byte)
    requires m != n
    ensures High(m) != High(n)
  {
    assert High(m).bytes[0] != High(n).bytes[0];
  }

  lemma {:induction false} NoneOfPrefix(s: seq<Contact>, p: nat)
    requires forall i :: 0 <= i < |s| ==> s[i].prefix != p
    ensures CountPrefix(s, p) == 0
  {
    if s != [] {
      NoneOfPrefix(s[..|s| - 1], p);
    }
  }
}

/**
 The iterative lookup `dht_find_node` (crates/network/src/lib.rs): up to eight
 rounds that query the nearest unqueried candidates and keep at most twice k of
 them. What the queried peers answer is arbitrary.
 */
module DhtLookup {
  import opened Machine
  import opened Sorting
  import opened NodeIds
  import opened DiverseSelection
  import opened DhtTable
  import opened DhtRouting

  const ROUNDS := 8

  /**
   A contact in a reply; `usable` is false for a bad signature, an expired record
   or the node itself. `refused` marks a record that the peer list turns away with
   an error, which ends the lookup.
   */
  datatype Heard = Heard(contact: Contact, usable: bool, refused: bool)

  /** One round: the deadline has passed, or the replies that arrived, in order. */
  datatype Round = Deadline | Replies(heard: seq<Heard>)

  /** `known` holds the ids of the seeds and of every usable contact heard so far. */
  datatype Search = Search(candidates: seq<Contact>, asked: seq<Id>, known: set<Id>)

  function Cap(k: nat, alpha: nat): nat { Max(2 * k, alpha) }

  function Nearest(candidates: seq<Contact>, near: Id -> int, limit: nat): seq<Contact> {
    Truncate(SortBy(candidates, By(near)), limit)
  }

  /** The first `alpha` candidates not queried before. */
  function Batch(candidates: seq<Contact>, queried: set<Id>, alpha: nat): seq<Id> {
    if candidates == [] || alpha == 0 then []
    else if candidates[0].id in queried then Batch(candidates[1..], queried, alpha)
    else [candidates[0].id] + Batch(candidates[1..], queried + {candidates[0].id}, alpha - 1)
  }

  function Asked(ids: seq<Id>): set<Id> { set id | id in ids }

  /** Add the usable contacts whose id is not a candidate yet. */
  function Absorb(candidates: seq<Contact>, heard: seq<Heard>): seq<Contact> {
    if heard == [] then candidates
    else
      var before, last := Absorb(candidates, heard[..|heard| - 1]), heard[|heard| - 1];
      if !last.usable || HasId(before, last.contact.id) then before else before + [last.contact]
  }

  function UsableIds(heard: seq<Heard>): set<Id> {
    set i | 0 <= i < |heard| && heard[i].usable :: heard[i].contact.id
  }

  predicate Refuses(h: Heard) { h.usable && h.refused }

  predicate AnyRefused(heard: seq<Heard>) { exists i :: 0 <= i < |heard| && Refuses(heard[i]) }

  /** One pass of the loop; the second result is false when the loop stops. */
  function Advance(s: Search, near: Id -> int, k: nat, alpha: nat, round: Round): (Search, bool) {
    match round
    case Deadline => (s, false)
    case Replies(heard) =>
      var kept := Nearest(s.candidates, near, Cap(k, alpha));
      var batch := Batch(kept, Asked(s.asked), alpha);
      if batch == [] then (s.(candidates := kept), false)
      else
        var grown := Absorb(kept, heard);
        (Search(grown, s.asked + batch, s.known + UsableIds(heard)), |grown| > |kept| && !AnyRefused(heard))
  }

  /** Does a round that asks somebody hear a contact that ends the lookup with an error? */
  predicate Errs(s: Search, near: Id -> int, k: nat, alpha: nat, rounds: seq<Round>)
    decreases |rounds|
  {
    && rounds != [] && rounds[0].Replies?
    && Batch(Nearest(s.candidates, near, Cap(k, alpha)), Asked(s.asked), alpha) != []
    && (|| AnyRefused(rounds[0].heard)
        || var (next, more) := Advance(s, near, k, alpha, rounds[0]);
           more && Errs(next, near, k, alpha, rounds[1..]))
  }

  function Explore(s: Search, near: Id -> int, k: nat, alpha: nat, rounds: seq<Round>): Search
    decreases |rounds|
  {
    if rounds == [] then s
    else
      var (next, more) := Advance(s, near, k, alpha, rounds[0]);
      if more then Explore(next, near, k, alpha, rounds[1..]) else next
  }

  function Opening(seeds: seq<Contact>): Search { Search(seeds, [], IdsOf(seeds)) }

  method AbsorbReplies(candidates: seq<Contact>, heard: seq<Heard>)
    returns (grown: seq<Contact>, changed: bool, failed: bool)
    ensures failed <==> AnyRefused(heard)
    ensures !failed ==> grown == Absorb(candidates, heard)
    ensures !failed ==> (changed <==> |grown| > |candidates|)
  {
    grown, changed, failed := candidates, false, false;
    for i := 0 to |heard|
      invariant !failed && forall j :: 0 <= j < i ==> !Refuses(heard[j])
      invariant grown == Absorb(candidates, heard[..i])
      invariant changed <==> |grown| > |candidates|
      invariant |grown| >= |candidates|
    {
      assert heard[..i + 1][..i] == heard[..i];
      if Refuses(heard[i]) {
        return grown, changed, true;
      }
      if heard[i].usable && !HasId(grown, heard[i].contact.id) {
        grown, changed := grown + [heard[i].contact], true;
      }
    }
    assert heard[..|heard|] == heard;
  }

  // ----- the conversation, over the ids alone

  function NearerIn(known: set<Id>, near: Id -> int, d: Id): set<Id> { set id | id in known && near(id) < near(d) }

  /** The `cap` nearest of the known ids. */
  function Reach(known: set<Id>, near: Id -> int, cap: nat): set<Id> {
    set id | id in known && |NearerIn(known, near, id)| < cap
  }

  /** `batch` is the `alpha` nearest of `unasked`, or all of it, nearest first. */
  ghost predicate NearestFirst(unasked: set<Id>, near: Id -> int, alpha: nat, batch: seq<Id>) {
    && |batch| == Min(alpha, |unasked|)
    && (forall i :: 0 <= i < |batch| ==> batch[i] in unasked)
    && (forall i, j :: 0 <= i < j < |batch| ==> near(batch[i]) < near(batch[j]))
    && (forall id, i :: id in unasked && id !in batch && 0 <= i < |batch| ==> near(batch[i]) < near(id))
  }

  /** What a lookup has heard of and asked when it ends, and whether it ended with an error. */
  datatype Talk = Talk(known: set<Id>, asked: seq<Id>, failed: bool)

  /**
   The conversation of a lookup that knows `known` and has asked `asked`. Every
   round asks the `alpha` nearest ids in reach that were not asked before. It goes
   on while there is one to ask, time is left, no reply is refused and some reply
   names an id that was not in reach.
   */
  ghost predicate Converses(
    known: set<Id>, asked: seq<Id>, near: Id -> int, cap: nat, alpha: nat, rounds: seq<Round>, end: Talk)
    decreases |rounds|
  {
    var unasked := Reach(known, near, cap) - Asked(asked);
    if rounds == [] || rounds[0].Deadline? || unasked == {} || alpha == 0 then end == Talk(known, asked, false)
    else
      var heard := rounds[0].heard;
      exists batch ::
        && NearestFirst(unasked, near, alpha, batch)
        && if AnyRefused(heard) || UsableIds(heard) <= Reach(known, near, cap)
           then end == Talk(known + UsableIds(heard), asked + batch, AnyRefused(heard))
           else Converses(known + UsableIds(heard), asked + batch, near, cap, alpha, rounds[1..], end)
  }

  /** The loop of `dht_find_node`. */
  method Traverse(near: Id -> int, seeds: seq<Contact>, k: nat, alpha: nat, rounds: seq<Round>)
    returns (candidates: seq<Contact>, asked: seq<Id>, failed: bool)
    requires |rounds| == ROUNDS
    ensures var end := Explore(Opening(seeds), near, k, alpha, rounds);
            asked == end.asked && (!failed ==> candidates == end.candidates)
    ensures failed <==> Errs(Opening(seeds), near, k, alpha, rounds)
    ensures DistinctIds(seeds) && Injective(near) ==>
              exists talk :: Converses(IdsOf(seeds), [], near, Cap(k, alpha), alpha, rounds, talk)
                             && asked == talk.asked && failed == talk.failed
  {
    if DistinctIds(seeds) && Injective(near) {
      OpeningConverses(near, seeds, k, alpha, rounds);
    }
    candidates, asked, failed := seeds, [], false;
    ghost var known := IdsOf(seeds);
    ghost var end := Explore(Opening(seeds), near, k, alpha, rounds);
    ghost var errs := Errs(Opening(seeds), near, k, alpha, rounds);
    var i, more := 0, true;
    while i < ROUNDS && more
      invariant 0 <= i <= ROUNDS
      invariant more ==> !failed && end == Explore(Search(candidates, asked, known), near, k, alpha, rounds[i..])
      invariant more ==> errs == Errs(Search(candidates, asked, known), near, k, alpha, rounds[i..])
      invariant !more ==> end.asked == asked && failed == errs && (!failed ==> end.candidates == candidates)
    {
      var round := rounds[i];
      assert rounds[i..][0] == round && rounds[i..][1..] == rounds[i + 1..];
      if round.Deadline? {
        more := false;
      } else {
        candidates := Nearest(candidates, near, Cap(k, alpha));
        var batch := Batch(candidates, Asked(asked), alpha);
        if batch == [] {
          more := false;
        } else {
          asked := asked + batch;
          known := known + UsableIds(round.heard);
          candidates, more, failed := AbsorbReplies(candidates, round.heard);
          more := more && !failed;
        }
      }
      i := i + 1;
    }
    assert rounds[ROUNDS..] == [];
  }

  /**
   `dht_find_node`, from seeds with distinct ids as `closest_diverse` gives them.
   It returns exactly the k nearest of all ids it ever knew, in order, asks no
   peer twice and asks at most eight times alpha peers, whatever the replies are
   and wherever the deadline falls. It fails exactly when a round it reaches hears
   a usable contact that cannot be stored.
   */
  method FindNode(target: Id, seeds: seq<Contact>, k: nat, alpha: nat, rounds: seq<Round>)
    returns (result: Option<seq<Contact>>, asked: seq<Id>)
    requires DistinctIds(seeds) && |rounds| == ROUNDS
    ensures result.None? <==> Errs(Opening(seeds), DistanceTo(target), k, alpha, rounds)
    ensures var end := Explore(Opening(seeds), DistanceTo(target), k, alpha, rounds);
            result.Some? ==>
              var found := result.value;
              && asked == end.asked
              && |found| == Min(k, |end.known|)
              && Strictly(found, DistanceTo(target))
              && (forall x :: x in found ==> x.id in end.known)
              && (forall x, id :: x in found && id in end.known && !HasId(found, id) ==>
                    DistanceTo(target)(x.id) < DistanceTo(target)(id))
    ensures forall i, j :: 0 <= i < j < |asked| ==> asked[i] != asked[j]
    ensures |asked| <= ROUNDS * alpha
    ensures Converses(IdsOf(seeds), [], DistanceTo(target), Cap(k, alpha), alpha, rounds,
                      Talk(Explore(Opening(seeds), DistanceTo(target), k, alpha, rounds).known, asked, result.None?))
  {
    var near := DistanceTo(target);
    var candidates, failed;
    candidates, asked, failed := Traverse(near, seeds, k, alpha, rounds);
    result := if failed then None else Some(Nearest(candidates, near, k));
    DistanceToInjective(target);
    LookupFinds(near, seeds, k, alpha, rounds);
    OpeningConverses(near, seeds, k, alpha, rounds);
  }

  lemma LookupFinds(near: Id -> int, seeds: seq<Contact>, k: nat, alpha: nat, rounds: seq<Round>)
    requires DistinctIds(seeds) && Injective(near)
    ensures var end := Explore(Opening(seeds), near, k, alpha, rounds);
            var found := Nearest(end.candidates, near, k);
            && |found| == Min(k, |end.known|)
            && Strictly(found, near)
            && (forall x :: x in found ==> x.id in end.known)
            && (forall x, id :: x in found && id in end.known && !HasId(found, id) ==> near(x.id) < near(id))
            && AskedOnce(end.asked) && |end.asked| <= |rounds| * alpha
  {
    SeedsGood(seeds, near, Cap(k, alpha));
    ExploreGood(Opening(seeds), near, k, alpha, rounds);
    ExploreAsks(Opening(seeds), near, k, alpha, rounds);
    NearestOfKnown(Explore(Opening(seeds), near, k, alpha, rounds), near, k, Cap(k, alpha));
  }

  // ----- the k nearest survive the truncation

  /** The ids in `s` nearer than `d`. */
  function Nearer(s: seq<Contact>, near: Id -> int, d: Id): set<Id> {
    set i | 0 <= i < |s| && near(s[i].id) < near(d) :: s[i].id
  }

  /** An id dropped from the candidates has at least `cap` nearer ones among them. */
  ghost predicate Covers(s: seq<Contact>, near: Id -> int, known: set<Id>, cap: nat) {
    forall d :: d in known ==> HasId(s, d) || |Nearer(s, near, d)| >= cap
  }

  ghost predicate SearchGood(s: Search, near: Id -> int, cap: nat) {
    && DistinctIds(s.candidates)
    && (forall i :: 0 <= i < |s.candidates| ==> s.candidates[i].id in s.known)
    && Covers(s.candidates, near, s.known, cap)
  }

  lemma SeedsGood(seeds: seq<Contact>, near: Id -> int, cap: nat)
    requires DistinctIds(seeds)
    ensures SearchGood(Opening(seeds), near, cap)
  {
    forall i | 0 <= i < |seeds| ensures seeds[i].id in IdsOf(seeds) {
      assert IdOf(seeds[i]) in IdsOf(seeds);
    }
  }

  lemma SortedStrictly(c: seq<Contact>, near: Id -> int)
    requires DistinctIds(c) && Injective(near)
    ensures var s := SortBy(c, By(near));
            && |s| == |c| && Strictly(s, near) && DistinctIds(s)
            && (forall x :: x in s <==> x in c)
  {
    var s := SortBy(c, By(near));
    SortFacts(c, By(near));
    SortMembers(c, By(near));
    DistinctPermute(c, s, IdOf);
    forall i, j | 0 <= i < j < |s| ensures near(s[i].id) < near(s[j].id) {
      SortedPair(s, near, i, j);
      assert IdOf(s[i]) != IdOf(s[j]);
    }
  }

  lemma NearerSame(a: seq<Contact>, b: seq<Contact>, near: Id -> int, d: Id)
    requires forall x :: x in a ==> x in b
    ensures Nearer(a, near, d) <= Nearer(b, near, d)
    ensures |Nearer(a, near, d)| <= |Nearer(b, near, d)|
  {
    forall id | id in Nearer(a, near, d) ensures id in Nearer(b, near, d) {
      var i :| 0 <= i < |a| && near(a[i].id) < near(d) && a[i].id == id;
      assert a[i] in b;
      var j :| 0 <= j < |b| && b[j] == a[i];
    }
    SubsetSize(Nearer(a, near, d), Nearer(b, near, d));
  }

  /** If `n` ids of a sorted list are nearer than `d`, its first `n` are. */
  lemma FrontNearer(s: seq<Contact>, near: Id -> int, d: Id, n: nat, i: nat)
    requires Strictly(s, near) && DistinctIds(s) && |Nearer(s, near, d)| >= n && i < n
    ensures i < |s| && near(s[i].id) < near(d)
  {
    var m := if i < |s| && near(s[i].id) >= near(d) then i else |s|;
    IdsCount(s[..m], IdOf);
    assert forall l :: m <= l < |s| ==> near(s[l].id) >= near(d);
    forall id | id in Nearer(s, near, d) ensures id in Ids(s[..m], IdOf) {
      var j :| 0 <= j < |s| && near(s[j].id) < near(d) && s[j].id == id;
      assert IdOf(s[..m][j]) == id;
    }
    SubsetSize(Nearer(s, near, d), Ids(s[..m], IdOf));
  }

  lemma AllNearer(s: seq<Contact>, near: Id -> int, d: Id)
    requires DistinctIds(s) && forall i :: 0 <= i < |s| ==> near(s[i].id) < near(d)
    ensures |Nearer(s, near, d)| == |s|
  {
    IdsCount(s, IdOf);
    forall id | id in Ids(s, IdOf) ensures id in Nearer(s, near, d) {
      var i :| 0 <= i < |s| && IdOf(s[i]) == id;
      assert near(s[i].id) < near(d);
    }
    assert Ids(s, IdOf) == Nearer(s, near, d);
  }

  /** What truncation leaves out is farther than everything it keeps. */
  lemma LeftOutIsFarther(c: seq<Contact>, near: Id -> int, known: set<Id>, cap: nat, n: nat, d: Id)
    requires DistinctIds(c) && Injective(near) && Covers(c, near, known, cap) && n <= cap && d in known
    requires !HasId(Nearest(c, near, n), d)
    ensures |Nearest(c, near, n)| == n
    ensures forall i :: 0 <= i < n ==> near(Nearest(c, near, n)[i].id) < near(d)
  {
    var s := SortBy(c, By(near));
    SortedStrictly(c, near);
    if HasId(c, d) {
      var l :| 0 <= l < |c| && c[l].id == d;
      assert c[l] in s;
      var j :| 0 <= j < |s| && s[j] == c[l];
      assert forall i :: 0 <= i < |Nearest(c, near, n)| ==> Nearest(c, near, n)[i] == s[i] && s[i].id != d;
      assert forall i :: 0 <= i < n ==> near(s[i].id) < near(s[j].id);
    } else {
      NearerSame(c, s, near, d);
      forall i | 0 <= i < n ensures i < |s| && near(s[i].id) < near(d) {
        FrontNearer(s, near, d, cap, i);
      }
      if n > 0 {
        FrontNearer(s, near, d, cap, n - 1);
      }
    }
  }

  lemma NearestMembers(c: seq<Contact>, near: Id -> int, n: nat)
    requires DistinctIds(c) && Injective(near)
    ensures var r := Nearest(c, near, n);
            && |r| == Min(n, |c|) && DistinctIds(r) && Strictly(r, near) && (forall x :: x in r ==> x in c)
  {
    SortedStrictly(c, near);
    TruncateFacts(SortBy(c, By(near)), n, near);
    StrictlyMeansDistinct(Nearest(c, near, n), near);
  }

  lemma NearestGood(s: Search, near: Id -> int, cap: nat)
    requires SearchGood(s, near, cap) && Injective(near)
    ensures SearchGood(s.(candidates := Nearest(s.candidates, near, cap)), near, cap)
  {
    var kept := Nearest(s.candidates, near, cap);
    NearestMembers(s.candidates, near, cap);
    forall i | 0 <= i < |kept| ensures kept[i].id in s.known {
      assert kept[i] in s.candidates;
    }
    forall d | d in s.known && !HasId(kept, d) ensures |Nearer(kept, near, d)| >= cap {
      LeftOutIsFarther(s.candidates, near, s.known, cap, cap, d);
      AllNearer(kept, near, d);
    }
  }

  lemma UsableSnoc(before: seq<Heard>, last: Heard)
    ensures UsableIds(before + [last]) == UsableIds(before) + if last.usable then {last.contact.id} else {}
  {
    var heard := before + [last];
    assert heard[|before|] == last;
    forall id | id in UsableIds(before) ensures id in UsableIds(heard) {
      var i :| 0 <= i < |before| && before[i].usable && before[i].contact.id == id;
      assert heard[i] == before[i];
    }
    forall id | id in UsableIds(heard)
      ensures id in UsableIds(before) || (last.usable && id == last.contact.id)
    {
      var i :| 0 <= i < |heard| && heard[i].usable && heard[i].contact.id == id;
      assert i < |before| ==> heard[i] == before[i];
    }
  }

  lemma {:induction false} AbsorbFacts(c: seq<Contact>, heard: seq<Heard>)
    requires DistinctIds(c)
    ensures var g := Absorb(c, heard);
            && c <= g && DistinctIds(g)
            && (forall id :: HasId(g, id) <==> HasId(c, id) || id in UsableIds(heard))
  {
    if heard != [] {
      var before, last := heard[..|heard| - 1], heard[|heard| - 1];
      AbsorbFacts(c, before);
      var b := Absorb(c, before);
      UsableSnoc(before, last);
      assert heard == before + [last];
      if last.usable && !HasId(b, last.contact.id) {
        AppendIds(b, last.contact);
      }
    }
  }

  lemma AppendIds(s: seq<Contact>, c: Contact)
    requires DistinctIds(s) && !HasId(s, c.id)
    ensures DistinctIds(s + [c])
    ensures forall id :: HasId(s + [c], id) <==> HasId(s, id) || id == c.id
  {
    var g := s + [c];
    forall id | HasId(s, id) || id == c.id ensures HasId(g, id) {
      if HasId(s, id) {
        var i :| 0 <= i < |s| && s[i].id == id;
        assert g[i].id == id;
      } else {
        assert g[|s|].id == id;
      }
    }
  }

  lemma AbsorbGood(s: Search, near: Id -> int, cap: nat, heard: seq<Heard>)
    requires SearchGood(s, near, cap)
    ensures SearchGood(s.(candidates := Absorb(s.candidates, heard), known := s.known + UsableIds(heard)), near, cap)
  {
    var c, g := s.candidates, Absorb(s.candidates, heard);
    AbsorbFacts(c, heard);
    forall i | 0 <= i < |g| ensures g[i].id in s.known + UsableIds(heard) {
      assert HasId(g, g[i].id);
    }
    forall d | d in s.known + UsableIds(heard) ensures HasId(g, d) || |Nearer(g, near, d)| >= cap {
      if !HasId(g, d) {
        NearerSame(c, g, near, d);
      }
    }
  }

  // ----- who is asked

  ghost predicate AskedOnce(ids: seq<Id>) { forall i, j :: 0 <= i < j < |ids| ==> ids[i] != ids[j] }

  lemma {:induction false} BatchFacts(c: seq<Contact>, queried: set<Id>, alpha: nat)
    ensures |Batch(c, queried, alpha)| <= alpha
    ensures AskedOnce(Batch(c, queried, alpha))
    ensures forall i :: 0 <= i < |Batch(c, queried, alpha)| ==> Batch(c, queried, alpha)[i] !in queried
    decreases |c|
  {
    if c != [] && alpha > 0 {
      if c[0].id in queried {
        BatchFacts(c[1..], queried, alpha);
      } else {
        BatchFacts(c[1..], queried + {c[0].id}, alpha - 1);
      }
    }
  }

  lemma AdvanceGood(s: Search, near: Id -> int, k: nat, alpha: nat, round: Round)
    requires SearchGood(s, near, Cap(k, alpha)) && AskedOnce(s.asked) && Injective(near)
    ensures var next := Advance(s, near, k, alpha, round).0;
            SearchGood(next, near, Cap(k, alpha)) && AskedOnce(next.asked)
  {
    if round.Replies? {
      var kept := Nearest(s.candidates, near, Cap(k, alpha));
      NearestGood(s, near, Cap(k, alpha));
      BatchFacts(kept, Asked(s.asked), alpha);
      AbsorbGood(s.(candidates := kept), near, Cap(k, alpha), round.heard);
      var batch := Batch(kept, Asked(s.asked), alpha);
      forall i | 0 <= i < |s.asked| ensures s.asked[i] in Asked(s.asked) {}
    }
  }

  lemma {:induction false} ExploreGood(s: Search, near: Id -> int, k: nat, alpha: nat, rounds: seq<Round>)
    requires SearchGood(s, near, Cap(k, alpha)) && AskedOnce(s.asked) && Injective(near)
    ensures var end := Explore(s, near, k, alpha, rounds);
            && SearchGood(end, near, Cap(k, alpha)) && AskedOnce(end.asked)
    decreases |rounds|
  {
    if rounds != [] {
      AdvanceGood(s, near, k, alpha, rounds[0]);
      var (next, more) := Advance(s, near, k, alpha, rounds[0]);
      if more {
        ExploreGood(next, near, k, alpha, rounds[1..]);
      }
    }
  }

  lemma AdvanceAsks(s: Search, near: Id -> int, k: nat, alpha: nat, round: Round)
    ensures |Advance(s, near, k, alpha, round).0.asked| <= |s.asked| + alpha
  {
    BatchFacts(Nearest(s.candidates, near, Cap(k, alpha)), Asked(s.asked), alpha);
  }

  lemma MulStep(n: nat, a: nat)
    ensures (n + 1) * a == n * a + a && n * a >= 0
  {
  }

  lemma {:induction false} ExploreAsks(s: Search, near: Id -> int, k: nat, alpha: nat, rounds: seq<Round>)
    ensures |Explore(s, near, k, alpha, rounds).asked| <= |s.asked| + |rounds| * alpha
    decreases |rounds|
  {
    if rounds != [] {
      AdvanceAsks(s, near, k, alpha, rounds[0]);
      MulStep(|rounds| - 1, alpha);
      var (next, more) := Advance(s, near, k, alpha, rounds[0]);
      if more {
        ExploreAsks(next, near, k, alpha, rounds[1..]);
      }
    }
  }

  lemma NearestOfKnown(s: Search, near: Id -> int, k: nat, cap: nat)
    requires SearchGood(s, near, cap) && Injective(near) && k <= cap
    ensures var found := Nearest(s.candidates, near, k);
            && |found| == Min(k, |s.known|)
            && Strictly(found, near)
            && (forall x :: x in found ==> x.id in s.known)
            && (forall x, id :: x in found && id in s.known && !HasId(found, id) ==> near(x.id) < near(id))
  {
    var found := Nearest(s.candidates, near, k);
    NearestMembers(s.candidates, near, k);
    forall x | x in found ensures x.id in s.known {
      assert x in s.candidates;
    }
    forall x, id | x in found && id in s.known && !HasId(found, id) ensures near(x.id) < near(id) {
      LeftOutIsFarther(s.candidates, near, s.known, cap, k, id);
    }
    FoundCount(s, near, k, cap);
  }

  lemma FoundCount(s: Search, near: Id -> int, k: nat, cap: nat)
    requires SearchGood(s, near, cap) && Injective(near) && k <= cap
    ensures |Nearest(s.candidates, near, k)| == Min(k, |s.known|)
  {
    var found := Nearest(s.candidates, near, k);
    NearestMembers(s.candidates, near, k);
    IdsCount(found, IdOf);
    assert Ids(found, IdOf) <= s.known by {
      forall i | 0 <= i < |found| ensures IdOf(found[i]) in s.known {
        assert found[i] in s.candidates;
      }
    }
    SubsetSize(Ids(found, IdOf), s.known);
    if |found| < k {
      forall d | d in s.known ensures d in Ids(found, IdOf) {
        if !HasId(found, d) {
          LeftOutIsFarther(s.candidates, near, s.known, cap, k, d);
        }
        var i :| 0 <= i < |found| && found[i].id == d;
        assert IdOf(found[i]) == d;
      }
      SubsetSize(s.known, Ids(found, IdOf));
    }
  }

  // ----- the lookup holds that conversation

  /** The candidates kept are the known ids in reach. */
  lemma KeptIsReach(s: Search, near: Id -> int, cap: nat, id: Id)
    requires SearchGood(s, near, cap) && Injective(near)
    ensures HasId(Nearest(s.candidates, near, cap), id) <==> id in Reach(s.known, near, cap)
  {
    var kept, nearer := Nearest(s.candidates, near, cap), NearerIn(s.known, near, id);
    NearestMembers(s.candidates, near, cap);
    NearestOfKnown(s, near, cap, cap);
    if HasId(kept, id) {
      var i :| 0 <= i < |kept| && kept[i].id == id;
      assert kept[i] in kept;
      FrontHoldsNearer(kept, near, s.known, i);
    } else if id in s.known {
      LeftOutIsFarther(s.candidates, near, s.known, cap, cap, id);
      IdsCount(kept, IdOf);
      forall d | d in Ids(kept, IdOf) ensures d in nearer {
        var i :| 0 <= i < |kept| && IdOf(kept[i]) == d;
        assert kept[i] in kept && near(kept[i].id) < near(id);
      }
      SubsetSize(Ids(kept, IdOf), nearer);
    }
  }

  /** Everything known that is nearer than the i-th kept candidate is kept before it. */
  lemma FrontHoldsNearer(kept: seq<Contact>, near: Id -> int, known: set<Id>, i: nat)
    requires Strictly(kept, near) && DistinctIds(kept) && i < |kept|
    requires forall x, id :: x in kept && id in known && !HasId(kept, id) ==> near(x.id) < near(id)
    ensures |NearerIn(known, near, kept[i].id)| <= i
  {
    var nearer, front := NearerIn(known, near, kept[i].id), kept[..i];
    assert DistinctIds(front);
    IdsCount(front, IdOf);
    forall d | d in nearer ensures d in Ids(front, IdOf) {
      assert kept[i] in kept;
      var j :| 0 <= j < |kept| && kept[j].id == d;
      assert j < i;
      assert IdOf(front[j]) == d;
    }
    SubsetSize(nearer, Ids(front, IdOf));
  }

  function FreshIn(c: seq<Contact>, queried: set<Id>): set<Id> {
    set i | 0 <= i < |c| && c[i].id !in queried :: c[i].id
  }

  lemma FreshCons(c: seq<Contact>, queried: set<Id>)
    requires c != [] && DistinctIds(c)
    ensures c[0].id in queried ==> FreshIn(c, queried) == FreshIn(c[1..], queried)
    ensures c[0].id !in queried ==>
              && FreshIn(c, queried) == {c[0].id} + FreshIn(c[1..], queried + {c[0].id})
              && c[0].id !in FreshIn(c[1..], queried + {c[0].id})
  {
    var rest := c[1..];
    assert forall i :: 0 <= i < |rest| ==> rest[i] == c[i + 1] && IdOf(rest[i]) != IdOf(c[0]);
    forall id | id in FreshIn(rest, queried) ensures id in FreshIn(c, queried) {
      var i :| 0 <= i < |rest| && rest[i].id !in queried && rest[i].id == id;
      assert c[i + 1].id == id;
    }
    forall id | id in FreshIn(c, queried) && id != c[0].id ensures id in FreshIn(rest, queried + {c[0].id}) {
      var i :| 0 <= i < |c| && c[i].id !in queried && c[i].id == id;
      assert rest[i - 1].id == id;
    }
    forall id | id in FreshIn(rest, queried + {c[0].id}) ensures id in FreshIn(c, queried) {
      var i :| 0 <= i < |rest| && rest[i].id !in queried + {c[0].id} && rest[i].id == id;
      assert c[i + 1].id == id;
    }
  }

  lemma FreshFarther(c: seq<Contact>, near: Id -> int, queried: set<Id>)
    requires c != [] && Strictly(c, near)
    ensures forall id :: id in FreshIn(c[1..], queried) ==> near(c[0].id) < near(id)
  {
    var rest := c[1..];
    assert forall i :: 0 <= i < |rest| ==> rest[i] == c[i + 1];
  }

  lemma {:induction false} BatchIsNearest(c: seq<Contact>, near: Id -> int, queried: set<Id>, alpha: nat)
    requires Strictly(c, near) && DistinctIds(c)
    ensures NearestFirst(FreshIn(c, queried), near, alpha, Batch(c, queried, alpha))
    decreases |c|
  {
    if c == [] {
      assert FreshIn(c, queried) == {};
    } else if alpha > 0 {
      TailStrictly(c, near);
      if c[0].id in queried {
        BatchIsNearest(c[1..], near, queried, alpha);
        BatchSkips(c, near, queried, alpha);
      } else {
        BatchIsNearest(c[1..], near, queried + {c[0].id}, alpha - 1);
        BatchGrows(c, near, queried, alpha - 1);
      }
    }
  }

  lemma BatchSkips(c: seq<Contact>, near: Id -> int, queried: set<Id>, alpha: nat)
    requires c != [] && DistinctIds(c) && c[0].id in queried
    requires NearestFirst(FreshIn(c[1..], queried), near, alpha, Batch(c[1..], queried, alpha))
    ensures NearestFirst(FreshIn(c, queried), near, alpha, Batch(c, queried, alpha))
  {
    FreshCons(c, queried);
  }

  lemma BatchGrows(c: seq<Contact>, near: Id -> int, queried: set<Id>, alpha: nat)
    requires c != [] && Strictly(c, near) && DistinctIds(c) && c[0].id !in queried
    requires var q := queried + {c[0].id};
             NearestFirst(FreshIn(c[1..], q), near, alpha, Batch(c[1..], q, alpha))
    ensures NearestFirst(FreshIn(c, queried), near, alpha + 1, Batch(c, queried, alpha + 1))
  {
    var q := queried + {c[0].id};
    FreshCons(c, queried);
    FreshFarther(c, near, q);
    NearestCons(FreshIn(c[1..], q), near, alpha, Batch(c[1..], q, alpha), c[0].id);
  }

  lemma TailStrictly(c: seq<Contact>, near: Id -> int)
    requires c != [] && Strictly(c, near) && DistinctIds(c)
    ensures Strictly(c[1..], near) && DistinctIds(c[1..])
  {
  }

  lemma NearestCons(unasked: set<Id>, near: Id -> int, alpha: nat, batch: seq<Id>, first: Id)
    requires NearestFirst(unasked, near, alpha, batch) && first !in unasked
    requires forall id :: id in unasked ==> near(first) < near(id)
    ensures NearestFirst({first} + unasked, near, alpha + 1, [first] + batch)
  {
    var all, longer := {first} + unasked, [first] + batch;
    assert |all| == 1 + |unasked| by {
      assert all - {first} == unasked;
    }
    assert forall i :: 0 < i < |longer| ==> longer[i] == batch[i - 1];
    forall id, i | id in all && id !in longer && 0 <= i < |longer| ensures near(longer[i]) < near(id) {
      assert longer[0] == first;
      assert id in unasked;
      assert id !in batch;
    }
  }

  lemma GrownIff(kept: seq<Contact>, heard: seq<Heard>)
    requires DistinctIds(kept)
    ensures |Absorb(kept, heard)| > |kept| <==> exists id :: id in UsableIds(heard) && !HasId(kept, id)
  {
    var grown := Absorb(kept, heard);
    AbsorbFacts(kept, heard);
    if |grown| > |kept| {
      var id := grown[|kept|].id;
      assert HasId(grown, id);
      assert forall i :: 0 <= i < |kept| ==> kept[i] == grown[i] && IdOf(grown[i]) != IdOf(grown[|kept|]);
    } else {
      assert grown == kept;
      assert forall id :: id in UsableIds(heard) ==> HasId(grown, id);
    }
  }

  /** One pass of the loop, over the ids. */
  lemma AdvanceConverses(s: Search, near: Id -> int, k: nat, alpha: nat, heard: seq<Heard>)
    requires SearchGood(s, near, Cap(k, alpha)) && Injective(near)
    ensures var cap := Cap(k, alpha);
            var kept := Nearest(s.candidates, near, cap);
            var unasked := Reach(s.known, near, cap) - Asked(s.asked);
            && NearestFirst(unasked, near, alpha, Batch(kept, Asked(s.asked), alpha))
            && (|Absorb(kept, heard)| > |kept| <==> !(UsableIds(heard) <= Reach(s.known, near, cap)))
  {
    var cap := Cap(k, alpha);
    var kept := Nearest(s.candidates, near, cap);
    NearestMembers(s.candidates, near, cap);
    forall id ensures HasId(kept, id) <==> id in Reach(s.known, near, cap) {
      KeptIsReach(s, near, cap, id);
    }
    BatchIsNearest(kept, near, Asked(s.asked), alpha);
    FreshIsReach(s, near, cap, kept);
    GrownIff(kept, heard);
  }

  lemma FreshIsReach(s: Search, near: Id -> int, cap: nat, kept: seq<Contact>)
    requires forall id :: HasId(kept, id) <==> id in Reach(s.known, near, cap)
    ensures FreshIn(kept, Asked(s.asked)) == Reach(s.known, near, cap) - Asked(s.asked)
  {
    var asked := Asked(s.asked);
    forall id | id in FreshIn(kept, asked) ensures id in Reach(s.known, near, cap) - asked {
      assert HasId(kept, id);
    }
    forall id | id in Reach(s.known, near, cap) - asked ensures id in FreshIn(kept, asked) {
      var i :| 0 <= i < |kept| && kept[i].id == id;
    }
  }

  lemma {:induction false} ExploreConverses(s: Search, near: Id -> int, k: nat, alpha: nat, rounds: seq<Round>)
    requires SearchGood(s, near, Cap(k, alpha)) && AskedOnce(s.asked) && Injective(near)
    ensures var end := Explore(s, near, k, alpha, rounds);
            Converses(s.known, s.asked, near, Cap(k, alpha), alpha, rounds,
                      Talk(end.known, end.asked, Errs(s, near, k, alpha, rounds)))
    decreases |rounds|
  {
    if rounds != [] && rounds[0].Replies? {
      var (next, more) := Advance(s, near, k, alpha, rounds[0]);
      AdvanceConverses(s, near, k, alpha, rounds[0].heard);
      AdvanceGood(s, near, k, alpha, rounds[0]);
      if more {
        ExploreConverses(next, near, k, alpha, rounds[1..]);
      }
    }
  }

  lemma OpeningConverses(near: Id -> int, seeds: seq<Contact>, k: nat, alpha: nat, rounds: seq<Round>)
    requires DistinctIds(seeds) && Injective(near)
    ensures var end := Explore(Opening(seeds), near, k, alpha, rounds);
            Converses(IdsOf(seeds), [], near, Cap(k, alpha), alpha, rounds,
                      Talk(end.known, end.asked, Errs(Opening(seeds), near, k, alpha, rounds)))
  {
    SeedsGood(seeds, near, Cap(k, alpha));
    ExploreConverses(Opening(seeds), near, k, alpha, rounds);
  }
}

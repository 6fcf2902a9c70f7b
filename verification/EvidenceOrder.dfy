/** A batch of evidence leads to the same decisions in whatever order it arrives. */
module EvidenceOrder {
  import opened Machine
  import opened EvidenceGraph

  function InsertAll(p: Policy, g: Graph, batch: seq<Evidence>, now: u64): Graph {
    if batch == [] then g
    else Insert(p, InsertAll(p, g, batch[..|batch| - 1], now), batch[|batch| - 1], now).0
  }

  // ----- what the list holds after a batch

  /** `entries` holds, for every topic of `all`, one piece of evidence with the highest sequence. */
  ghost predicate NewestOf(entries: seq<Evidence>, all: seq<Evidence>) {
    && OnePerTopic(entries)
    && (forall x :: x in entries ==> x in all)
    && (forall x, y :: x in entries && y in all && TopicOf(x) == TopicOf(y) ==> y.sequence <= x.sequence)
    && Topics(entries) == Topics(all)
  }

  function Topics(s: seq<Evidence>): set<Topic> { set e | e in s :: TopicOf(e) }

  /** One sequence number means one statement. */
  ghost predicate Consistent(all: seq<Evidence>) {
    forall x, y :: x in all && y in all && TopicOf(x) == TopicOf(y) && x.sequence == y.sequence ==> x == y
  }

  lemma {:induction false} TopicsCount(entries: seq<Evidence>)
    requires OnePerTopic(entries)
    ensures |Topics(entries)| == |entries|
  {
    if entries == [] {
      assert Topics(entries) == {};
    } else {
      var before, last := entries[..|entries| - 1], entries[|entries| - 1];
      assert entries == before + [last];
      TopicsCount(before);
      assert Topics(entries) == Topics(before) + {TopicOf(last)};
      assert TopicOf(last) !in Topics(before);
    }
  }

  lemma TopicsSnoc(s: seq<Evidence>, e: Evidence)
    ensures Topics(s + [e]) == Topics(s) + {TopicOf(e)}
  {
    assert forall x :: x in s + [e] <==> x in s || x == e;
  }

  lemma ReplaceNewest(entries: seq<Evidence>, all: seq<Evidence>, i: nat, e: Evidence)
    requires NewestOf(entries, all) && i < |entries| && TopicOf(entries[i]) == TopicOf(e)
    ensures entries[i].sequence >= e.sequence ==> NewestOf(entries, all + [e])
    ensures entries[i].sequence < e.sequence ==> NewestOf(entries[i := e], all + [e])
  {
    TopicsSnoc(all, e);
    assert TopicOf(e) in Topics(entries);
    var next := entries[i := e];
    forall x | x in next ensures x == e || x in entries {}
    forall x, y | x in next && y in entries && TopicOf(x) == TopicOf(y) ensures x == y || x == e {
      var a :| 0 <= a < |next| && next[a] == x;
      var b :| 0 <= b < |entries| && entries[b] == y;
      assert TopicOf(next[a]) == TopicOf(entries[a]);
    }
    assert Topics(next) == Topics(entries) by { SameTopics(entries, i, e); }
  }

  lemma SameTopics(entries: seq<Evidence>, i: nat, e: Evidence)
    requires i < |entries| && TopicOf(entries[i]) == TopicOf(e)
    ensures Topics(entries[i := e]) == Topics(entries)
  {
    var next := entries[i := e];
    forall t ensures t in Topics(next) <==> t in Topics(entries) {
      if t in Topics(next) {
        var x :| x in next && TopicOf(x) == t;
        var a :| 0 <= a < |next| && next[a] == x;
        assert TopicOf(entries[a]) == t;
        assert entries[a] in entries;
      }
      if t in Topics(entries) {
        var x :| x in entries && TopicOf(x) == t;
        var a :| 0 <= a < |entries| && entries[a] == x;
        assert TopicOf(next[a]) == t;
        assert next[a] in next;
      }
    }
  }

  lemma PushNewest(entries: seq<Evidence>, all: seq<Evidence>, e: Evidence)
    requires NewestOf(entries, all) && FindTopic(entries, TopicOf(e)).None?
    ensures NewestOf(entries + [e], all + [e])
  {
    TopicsSnoc(entries, e);
    TopicsSnoc(all, e);
    assert TopicOf(e) !in Topics(entries);
    forall y | y in all ensures TopicOf(y) != TopicOf(e) {
      assert TopicOf(y) in Topics(all);
    }
  }

  lemma InsertNewest(p: Policy, g: Graph, all: seq<Evidence>, e: Evidence, now: u64)
    requires NewestOf(g.entries, all) && !Refused(p, e, now)
    requires |Topics(all + [e])| <= p.maxEvidence
    ensures NewestOf(Insert(p, g, e, now).0.entries, all + [e])
  {
    var known := FindTopic(g.entries, TopicOf(e));
    if known.Some? {
      ReplaceNewest(g.entries, all, known.value, e);
    } else {
      PushNewest(g.entries, all, e);
      TopicsCount(g.entries + [e]);
      assert |g.entries| + 1 <= p.maxEvidence;
    }
  }

  lemma {:induction false} BatchNewest(p: Policy, g: Graph, batch: seq<Evidence>, now: u64)
    requires OnePerTopic(g.entries) && forall i :: 0 <= i < |batch| ==> !Refused(p, batch[i], now)
    requires |Topics(g.entries + batch)| <= p.maxEvidence
    ensures NewestOf(InsertAll(p, g, batch, now).entries, g.entries + batch)
  {
    if batch == [] {
      assert g.entries + batch == g.entries;
      forall x, y | x in g.entries && y in g.entries && TopicOf(x) == TopicOf(y) ensures y == x {
        var a :| 0 <= a < |g.entries| && g.entries[a] == x;
        var b :| 0 <= b < |g.entries| && g.entries[b] == y;
      }
    } else {
      var before, last := batch[..|batch| - 1], batch[|batch| - 1];
      assert g.entries + batch == (g.entries + before) + [last];
      TopicsSnoc(g.entries + before, last);
      SubsetSize(Topics(g.entries + before), Topics(g.entries + batch));
      BatchNewest(p, g, before, now);
      InsertNewest(p, InsertAll(p, g, before, now), g.entries + before, last, now);
    }
  }

  /** The newest statements of a consistent collection are determined. */
  lemma NewestUnique(a: seq<Evidence>, b: seq<Evidence>, allA: seq<Evidence>, allB: seq<Evidence>, x: Evidence)
    requires NewestOf(a, allA) && NewestOf(b, allB) && Consistent(allA)
    requires forall e :: e in allA <==> e in allB
    requires x in a
    ensures x in b
  {
    assert TopicOf(x) in Topics(allB);
    assert TopicOf(x) in Topics(b);
    var y :| y in b && TopicOf(y) == TopicOf(x);
  }

  // ----- the decision looks only at which statements are there

  ghost predicate SameStatements(a: seq<Evidence>, b: seq<Evidence>) { forall e :: e in a <==> e in b }

  function Matching(s: seq<Evidence>, p: Evidence -> bool): set<Evidence> { set e | e in s && p(e) }

  lemma {:induction false} CountIsSize(s: seq<Evidence>, p: Evidence -> bool)
    requires OnePerTopic(s)
    ensures CountIf(s, p) == |Matching(s, p)|
  {
    if s == [] {
      assert Matching(s, p) == {};
    } else {
      var before, last := s[..|s| - 1], s[|s| - 1];
      assert s == before + [last];
      CountIsSize(before, p);
      assert Matching(s, p) == Matching(before, p) + if p(last) then {last} else {};
      assert last !in before;
    }
  }

  lemma CountOne(e: Evidence, p: Evidence -> bool)
    ensures CountIf([e], p) == if p(e) then 1 else 0
  {
    assert [e][..0] == [];
  }

  lemma CountSame(a: seq<Evidence>, b: seq<Evidence>, p: Evidence -> bool)
    requires OnePerTopic(a) && OnePerTopic(b) && SameStatements(a, b)
    ensures CountIf(a, p) == CountIf(b, p)
  {
    CountIsSize(a, p);
    CountIsSize(b, p);
    assert Matching(a, p) == Matching(b, p);
  }

  /** Everyone whose endorsement would count, without a limit. */
  function Qualified(entries: seq<Evidence>, s: seq<Evidence>, subject: NodeId, now: u64): set<NodeId> {
    set e | e in s && Endorses(entries, e, subject, now) :: e.issuer
  }

  lemma QualifiedSnoc(entries: seq<Evidence>, s: seq<Evidence>, e: Evidence, subject: NodeId, now: u64)
    ensures Qualified(entries, s + [e], subject, now)
            == Qualified(entries, s, subject, now) + if Endorses(entries, e, subject, now) then {e.issuer} else {}
  {
    assert forall x :: x in s + [e] <==> x in s || x == e;
  }

  /** A set collected up to a limit, and the set collected without one, one element later. */
  lemma LimitedStep(found: set<NodeId>, all: set<NodeId>, x: NodeId, counts: bool, max: nat)
    requires found <= all && |found| == Min(max, |all|) && (|found| < max ==> found == all)
    ensures var found' := if counts && x !in found && |found| < max then found + {x} else found;
            var all' := all + if counts then {x} else {};
            found' <= all' && |found'| == Min(max, |all'|) && (|found'| < max ==> found' == all')
  {
    if counts {
      SubsetSize(all, all + {x});
    } else {
      assert all + {} == all;
    }
  }

  /** The loop counts exactly min(limit, qualifying endorsers), whatever the order of the entries. */
  lemma {:induction false} EndorsersCount(
    p: Policy, entries: seq<Evidence>, s: seq<Evidence>, subject: NodeId, now: u64)
    ensures var found := Endorsers(p, entries, s, subject, now);
            && found <= Qualified(entries, s, subject, now)
            && |found| == Min(p.maxEndorsements, |Qualified(entries, s, subject, now)|)
            && (|found| < p.maxEndorsements ==> found == Qualified(entries, s, subject, now))
  {
    if s == [] {
      assert Qualified(entries, s, subject, now) == {};
    } else {
      var before, last := s[..|s| - 1], s[|s| - 1];
      EndorsersCount(p, entries, before, subject, now);
      assert s == before + [last];
      QualifiedSnoc(entries, before, last, subject, now);
      LimitedStep(Endorsers(p, entries, before, subject, now), Qualified(entries, before, subject, now),
                  last.issuer, Endorses(entries, last, subject, now), p.maxEndorsements);
    }
  }

  lemma EndorsersSame(p: Policy, a: seq<Evidence>, b: seq<Evidence>, subject: NodeId, now: u64)
    requires SameStatements(a, b)
    ensures |Endorsers(p, a, a, subject, now)| == |Endorsers(p, b, b, subject, now)|
  {
    EndorsersCount(p, a, a, subject, now);
    EndorsersCount(p, b, b, subject, now);
    assert forall n :: HasDirect(a, n, now) <==> HasDirect(b, n, now);
    assert Qualified(a, a, subject, now) == Qualified(b, b, subject, now);
  }

  lemma CountsSame(p: Policy, a: seq<Evidence>, b: seq<Evidence>, subject: NodeId, now: u64)
    requires OnePerTopic(a) && OnePerTopic(b) && SameStatements(a, b)
    ensures CountAll(p, a, subject, now) == CountAll(p, b, subject, now)
  {
    CountSame(a, b, Direct(subject, now));
    CountSame(a, b, Success(subject, now));
    CountSame(a, b, Failure(subject, now));
    CountSame(a, b, LocalSuccess(p, subject, now));
    CountSame(a, b, LocalFailure(p, subject, now));
    CountSame(a, b, Report(subject, now));
    assert IndependentIssuers(a, subject, now) == IndependentIssuers(b, subject, now);
    EndorsersSame(p, a, b, subject, now);
  }

  /**
   Two orders of a batch of acceptable evidence, inserted at one time into the
   same graph without eviction, lead to the same decision about every subject at
   every time, apart from the count of rejected evidence. One sequence number
   must not stand for two different statements.
   */
  lemma OrderDoesNotMatter(
    p: Policy, g: Graph, first: seq<Evidence>, second: seq<Evidence>, now: u64, subject: NodeId, when: u64)
    requires OnePerTopic(g.entries) && multiset(first) == multiset(second)
    requires forall i :: 0 <= i < |first| ==> !Refused(p, first[i], now)
    requires |Topics(g.entries + first)| <= p.maxEvidence
    requires Consistent(g.entries + first)
    ensures var a, b := InsertAll(p, g, first, now), InsertAll(p, g, second, now);
            Decide(p, a, subject, when) == Decide(p, b, subject, when).(rejectedEvidence := a.rejected)
  {
    var allA, allB := g.entries + first, g.entries + second;
    forall e ensures e in allA <==> e in allB {
      assert e in first <==> e in multiset(first);
      assert e in second <==> e in multiset(second);
    }
    forall i | 0 <= i < |second| ensures !Refused(p, second[i], now) {
      assert second[i] in multiset(first);
    }
    assert Topics(allA) == Topics(allB);
    BatchNewest(p, g, first, now);
    BatchNewest(p, g, second, now);
    var a, b := InsertAll(p, g, first, now).entries, InsertAll(p, g, second, now).entries;
    SameEntries(a, b, allA, allB);
    CountsSame(p, a, b, subject, when);
  }

  lemma SameEntries(a: seq<Evidence>, b: seq<Evidence>, allA: seq<Evidence>, allB: seq<Evidence>)
    requires NewestOf(a, allA) && NewestOf(b, allB) && Consistent(allA)
    requires forall e :: e in allA <==> e in allB
    ensures SameStatements(a, b)
  {
    forall e ensures e in a <==> e in b {
      if e in a {
        NewestUnique(a, b, allA, allB, e);
      }
      if e in b {
        NewestUnique(b, a, allB, allA, e);
      }
    }
  }

  /**
   Why the sequences must tell statements apart: of two statements with one
   sequence the first to arrive stays, and if they expire at different times the
   order decides what is known in between.
   */
  lemma EqualSequencesDisagree(p: Policy, x: Evidence, y: Evidence, now: u64, when: u64)
    requires ValidPolicy(p) && !Refused(p, x, now) && !Refused(p, y, now)
    requires TopicOf(x) == TopicOf(y) && x.sequence == y.sequence && x.kind.JobCompleted?
    requires x.expiresAt < when <= y.expiresAt
    ensures var g := Graph([], 0);
            && Decide(p, InsertAll(p, g, [x, y], now), x.subject, when).counts.successes == 0
            && Decide(p, InsertAll(p, g, [y, x], now), x.subject, when).counts.successes == 1
  {
    FirstOfEqualsStays(p, x, y, now);
    FirstOfEqualsStays(p, y, x, now);
    CountOne(x, Success(x.subject, when));
    CountOne(y, Success(x.subject, when));
  }

  /**
   Why nothing may be evicted: a graph with room for one statement keeps the last
   of two about different nodes, so the order decides which node is known.
   */
  lemma EvictionDisagrees(p: Policy, x: Evidence, y: Evidence, now: u64)
    requires ValidPolicy(p) && p.maxEvidence == 1 && !Refused(p, x, now) && !Refused(p, y, now)
    requires x.subject != y.subject && x.kind.JobCompleted?
    ensures var g := Graph([], 0);
            && Decide(p, InsertAll(p, g, [x, y], now), x.subject, now).counts.successes == 0
            && Decide(p, InsertAll(p, g, [y, x], now), x.subject, now).counts.successes == 1
  {
    LastStays(p, x, y, now);
    LastStays(p, y, x, now);
    CountOne(x, Success(x.subject, now));
    CountOne(y, Success(x.subject, now));
  }

  lemma LastStays(p: Policy, x: Evidence, y: Evidence, now: u64)
    requires p.maxEvidence == 1 && !Refused(p, x, now) && !Refused(p, y, now) && TopicOf(x) != TopicOf(y)
    ensures InsertAll(p, Graph([], 0), [x, y], now).entries == [y]
  {
    var g := Graph([], 0);
    assert [x, y][..1] == [x] && [x][..0] == [];
    assert InsertAll(p, g, [x], now).entries == [x];
    assert MakeRoom(p, [x]) == [];
  }

  lemma FirstOfEqualsStays(p: Policy, x: Evidence, y: Evidence, now: u64)
    requires ValidPolicy(p) && !Refused(p, x, now) && !Refused(p, y, now)
    requires TopicOf(x) == TopicOf(y) && x.sequence == y.sequence
    ensures InsertAll(p, Graph([], 0), [x, y], now).entries == [x]
  {
    var g := Graph([], 0);
    assert [x, y][..1] == [x] && [x][..0] == [];
    assert InsertAll(p, g, [x], now) == Insert(p, g, x, now).0;
    assert InsertAll(p, g, [x], now).entries == [x];
  }
}

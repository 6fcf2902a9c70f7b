/**
 What a trust decision means: the score as a weighted sum, each maturity by its
 own condition, and what one more statement does to both.
 */
module EvidenceMeaning {
  import opened Machine
  import opened EvidenceGraph
  import opened EvidenceOrder

  // ----- the score

  /** What speaks for a subject, and against it, without machine bounds. */
  function Credit(c: Counts): nat {
    15 * c.localSuccesses + 5 * Max(c.successes - c.localSuccesses, 0) + 10 * c.issuers + 3 * c.endorsements
  }

  function Blame(c: Counts): nat {
    20 * c.localFailures + 5 * Max(c.failures - c.localFailures, 0) + 2 * c.reports
  }

  function Clamp(a: int): nat { Min(Max(a, 0), 100) }

  /** Saturating at every step of the two sums is saturating once. */
  lemma ScoresAreSums(c: Counts)
    ensures PositiveScore(c) == Min(Credit(c), U64_MAX)
    ensures NegativeScore(c) == Min(Blame(c), U64_MAX)
  {
  }

  /**
   The score is credit less blame between 0 and 100, as long as one of them fits a
   `u64`; when neither does, both saturate and it is 0.
   */
  lemma ScoreIs(p: Policy, c: Counts, rejected: u64)
    ensures var score := Judge(p, c, rejected).score;
            && score <= 100
            && (Credit(c) <= U64_MAX - 100 || Blame(c) <= U64_MAX - 100 ==> score == Clamp(Credit(c) - Blame(c)))
            && (Credit(c) >= U64_MAX && Blame(c) >= U64_MAX ==> score == 0)
  {
    ScoresAreSums(c);
  }

  /** At least as much to its credit, at most as much to its blame. */
  ghost predicate NoWorse(c: Counts, d: Counts) {
    && c.localSuccesses <= d.localSuccesses
    && c.successes - c.localSuccesses <= d.successes - d.localSuccesses
    && c.issuers <= d.issuers && c.endorsements <= d.endorsements
    && d.localFailures <= c.localFailures
    && d.failures - d.localFailures <= c.failures - c.localFailures
    && d.reports <= c.reports
  }

  /**
   More successes, issuers or endorsers never lower a score, and neither do fewer
   failures or reports; read the other way, more of those never raise it.
   */
  lemma ScoreMonotone(p: Policy, c: Counts, d: Counts, r: u64, s: u64)
    requires NoWorse(c, d)
    ensures Credit(c) <= Credit(d) && Blame(d) <= Blame(c)
    ensures Judge(p, c, r).score <= Judge(p, d, s).score
  {
    ScoresAreSums(c);
    ScoresAreSums(d);
  }

  // ----- the maturity

  /** Blame outweighs credit, of a subject that has succeeded or failed at something. */
  ghost predicate Outweighed(c: Counts) {
    Min(Blame(c), U64_MAX) > Min(Credit(c), U64_MAX) && (c.failures > 0 || c.successes > 0)
  }

  ghost predicate Seasoned(c: Counts, successes: nat, issuers: nat) {
    c.successes >= successes && c.issuers >= issuers
  }

  /** What a decision says about its counts: the score, the quarantine and each maturity by its own condition. */
  ghost predicate Judged(p: Policy, d: Decision) {
    var c := d.counts;
    var held := c.failures >= p.quarantineFailures;
    var bad := held || Outweighed(c);
    var trusted := Seasoned(c, p.trustedSuccesses, p.trustedIssuers);
    var established := Seasoned(c, p.establishedSuccesses, p.establishedIssuers);
    && d.score <= 100
    && (Credit(c) <= U64_MAX - 100 || Blame(c) <= U64_MAX - 100 ==> d.score == Clamp(Credit(c) - Blame(c)))
    && (d.quarantined <==> held) && (d.maturity == Quarantined <==> held)
    && (d.maturity == Degraded <==> !held && Outweighed(c))
    && (d.maturity == TrustedLocally <==> !bad && trusted)
    && (d.maturity == Established <==> !bad && !trusted && established)
    && (d.maturity == Observed <==> !bad && !trusted && !established && c.direct > 0)
    && (d.maturity == New <==> !bad && !trusted && !established && c.direct == 0)
    && d.acceptedEvidence == Min(c.direct + c.endorsements, U64_MAX)
  }

  lemma JudgeMeans(p: Policy, c: Counts, rejected: u64)
    ensures var d := Judge(p, c, rejected);
            Judged(p, d) && d.counts == c && d.rejectedEvidence == rejected
  {
    ScoreIs(p, c, rejected);
    ScoresAreSums(c);
  }

  /** A subject nobody holds anything against is never degraded, and reports alone neither degrade nor quarantine. */
  lemma NeverDegradedUnblamed(p: Policy, c: Counts, rejected: u64)
    ensures c.localFailures == c.failures == 0 && c.reports == 0 ==> Judge(p, c, rejected).maturity != Degraded
    ensures c.failures == 0 && c.successes == 0 ==> Judge(p, c, rejected).maturity != Degraded
    ensures c.failures == 0 && p.quarantineFailures > 0 ==> !Judge(p, c, rejected).quarantined
  {
    JudgeMeans(p, c, rejected);
  }

  function Rank(m: Maturity): nat {
    match m
    case Quarantined => 0
    case Degraded => 1
    case New => 2
    case Observed => 3
    case Established => 4
    case TrustedLocally => 5
  }

  /** The rank read off the conditions. */
  ghost function RankBy(held: bool, outweighed: bool, trusted: bool, established: bool, direct: bool): nat {
    if held then 0 else if outweighed then 1 else if trusted then 5 else if established then 4
    else if direct then 3 else 2
  }

  lemma RankIs(p: Policy, c: Counts, rejected: u64)
    ensures Rank(Judge(p, c, rejected).maturity)
            == RankBy(c.failures >= p.quarantineFailures, Outweighed(c),
                      Seasoned(c, p.trustedSuccesses, p.trustedIssuers),
                      Seasoned(c, p.establishedSuccesses, p.establishedIssuers), c.direct > 0)
  {
    ScoresAreSums(c);
  }

  /**
   When nothing is taken away and no failure or report is added, a subject rises or
   stays, except in one case: it had neither succeeded nor failed, and its first
   success does not make up for the reports against it.
   */
  lemma RankRisesIff(p: Policy, c: Counts, d: Counts, r: u64, s: u64)
    requires NoWorse(c, d) && c.direct <= d.direct && c.successes <= d.successes
    requires c.failures == d.failures && c.localFailures == d.localFailures && c.reports == d.reports
    ensures Rank(Judge(p, c, r).maturity) <= Rank(Judge(p, d, s).maturity)
            <==> !(c.failures == 0 < p.quarantineFailures && c.successes == 0 && Outweighed(d))
  {
    RankIs(p, c, r);
    RankIs(p, d, s);
    OutweighedOnlyByBlankness(p, c, d);
    RanksCompare(c.failures >= p.quarantineFailures, c.failures == 0 && c.successes == 0,
                 Outweighed(c), Outweighed(d),
                 Seasoned(c, p.trustedSuccesses, p.trustedIssuers), Seasoned(d, p.trustedSuccesses, p.trustedIssuers),
                 Seasoned(c, p.establishedSuccesses, p.establishedIssuers),
                 Seasoned(d, p.establishedSuccesses, p.establishedIssuers), c.direct > 0, d.direct > 0);
  }

  lemma OutweighedOnlyByBlankness(p: Policy, c: Counts, d: Counts)
    requires NoWorse(c, d)
    ensures Outweighed(d) ==> Outweighed(c) || (c.failures == 0 && c.successes == 0)
    ensures c.failures == 0 && c.successes == 0 ==> !Outweighed(c)
  {
    ScoreMonotone(p, c, d, 0, 0);
  }

  /** Ranks of conditions that only grow, apart from one that a blank record hides. */
  lemma RanksCompare(held: bool, blank: bool, out: bool, out': bool, trusted: bool, trusted': bool,
                     established: bool, established': bool, direct: bool, direct': bool)
    requires (out' ==> out || blank) && (blank ==> !out)
    requires (trusted ==> trusted') && (established ==> established') && (direct ==> direct')
    ensures RankBy(held, out, trusted, established, direct) <= RankBy(held, out', trusted', established', direct')
            <==> held || !(blank && out')
  {
  }

  /** Eight reports leave an unknown subject New; its first success, from somebody remote, makes it Degraded. */
  lemma FirstSuccessCanDegrade(p: Policy)
    requires p.quarantineFailures > 0 && p.trustedSuccesses > 1 && p.establishedSuccesses > 1
    ensures var none, one := Counts(0, 0, 0, 0, 0, 8, 0, 0), Counts(1, 1, 0, 0, 0, 8, 1, 0);
            Judge(p, none, 0).maturity == New && Judge(p, one, 0).maturity == Degraded
  {
  }

  // ----- kinds

  /** Every statement is a report, an endorsement or direct; a direct one is good or bad, and never both. */
  lemma KindsPartition(k: Kind)
    ensures IsDirect(k) <==> k != Endorsement && k != ViolationReport
    ensures IsDirect(k) <==> IsPositive(k) || IsNegative(k)
    ensures !(IsPositive(k) && IsNegative(k))
    ensures IsSuccess(k) <==> IsPositive(k) && k != ObservedOnline
  {
  }

  // ----- insertion

  /** `a` goes before `b`: it expires sooner, or was observed sooner, or has the lower sequence. */
  ghost predicate GoesFirst(a: Evidence, b: Evidence) {
    || a.expiresAt < b.expiresAt
    || (a.expiresAt == b.expiresAt
        && (a.observedAt < b.observedAt || (a.observedAt == b.observedAt && a.sequence <= b.sequence)))
  }

  lemma AgeOrders(a: Evidence, b: Evidence)
    ensures Age(a) <= Age(b) <==> GoesFirst(a, b)
  {
  }

  /** The statements after one was kept: the topic's old one is gone, or the first to go when the list was full. */
  ghost predicate KeptInto(p: Policy, entries: seq<Evidence>, e: Evidence, next: seq<Evidence>) {
    if exists x :: x in entries && TopicOf(x) == TopicOf(e) then
      forall x :: x in next <==> x == e || (x in entries && TopicOf(x) != TopicOf(e))
    else if |entries| < p.maxEvidence then next == entries + [e]
    else
      exists gone ::
        && gone in entries && (forall x :: x in entries ==> GoesFirst(gone, x))
        && (forall x :: x in next <==> x == e || (x in entries && x != gone))
  }

  /**
   A statement is invalid when it is not genuine, has expired or is from the
   future, stale when its topic has one at least as new, and kept otherwise. What is
   not kept only counts as rejected.
   */
  lemma InsertEffect(p: Policy, g: Graph, e: Evidence, now: u64)
    requires ValidPolicy(p) && GraphGood(p, g)
    ensures var (next, outcome) := Insert(p, g, e, now);
            var timely := e.genuine && now <= e.expiresAt && e.observedAt <= SatAdd(now, p.maxClockSkew);
            var newer := exists x :: x in g.entries && TopicOf(x) == TopicOf(e) && x.sequence >= e.sequence;
            && outcome == (if !timely then Invalid else if newer then Stale else Kept)
            && (outcome != Kept ==> next == g.(rejected := SatAdd(g.rejected, 1)))
            && (outcome == Kept ==> next.rejected == g.rejected && KeptInto(p, g.entries, e, next.entries))
  {
    var known := FindTopic(g.entries, TopicOf(e));
    if known.Some? {
      KnownTopic(g.entries, known.value, e);
    } else {
      assert forall x :: x in g.entries ==> TopicOf(x) != TopicOf(e);
      if !Refused(p, e, now) && |g.entries| >= p.maxEvidence {
        RoomMade(p, g.entries, e);
      }
    }
  }

  lemma KnownTopic(entries: seq<Evidence>, i: nat, e: Evidence)
    requires OnePerTopic(entries) && i < |entries| && TopicOf(entries[i]) == TopicOf(e)
    ensures entries[i] in entries
    ensures forall x :: x in entries && TopicOf(x) == TopicOf(e) ==> x == entries[i]
    ensures forall x :: x in entries[i := e] <==> x == e || (x in entries && TopicOf(x) != TopicOf(e))
  {
    var next := entries[i := e];
    assert next[i] == e;
    forall x | x in entries && TopicOf(x) != TopicOf(e) ensures x in next {
      var j :| 0 <= j < |entries| && entries[j] == x;
      assert next[j] == x;
    }
  }

  lemma RoomMade(p: Policy, entries: seq<Evidence>, e: Evidence)
    requires OnePerTopic(entries) && |entries| >= p.maxEvidence && entries != []
    ensures var gone := entries[Oldest(entries)];
            && gone in entries && (forall x :: x in entries ==> GoesFirst(gone, x))
            && (forall x :: x in MakeRoom(p, entries) + [e] <==> x == e || (x in entries && x != gone))
  {
    OldestGoesFirst(entries);
    WithoutOne(entries, Oldest(entries));
  }

  lemma OldestGoesFirst(entries: seq<Evidence>)
    requires entries != []
    ensures forall x :: x in entries ==> GoesFirst(entries[Oldest(entries)], x)
  {
    forall x | x in entries ensures GoesFirst(entries[Oldest(entries)], x) {
      var j :| 0 <= j < |entries| && entries[j] == x;
      AgeOrders(entries[Oldest(entries)], entries[j]);
    }
  }

  lemma WithoutOne(entries: seq<Evidence>, i: nat)
    requires OnePerTopic(entries) && i < |entries|
    ensures forall x :: x in entries[..i] + entries[i + 1..] <==> x in entries && x != entries[i]
  {
    var room := entries[..i] + entries[i + 1..];
    forall x | x in entries && x != entries[i] ensures x in room {
      var j :| 0 <= j < |entries| && entries[j] == x;
      assert room[if j < i then j else j - 1] == x;
    }
    forall x | x in room ensures x in entries && x != entries[i] {
      var j :| 0 <= j < |room| && room[j] == x;
      assert entries[if j < i then j else j + 1] == x;
    }
  }

  // ----- one more statement

  function One(b: bool): nat { if b then 1 else 0 }

  /** How the counts about a subject change with one more statement about it. */
  ghost predicate CountsAfter(
    p: Policy, entries: seq<Evidence>, e: Evidence, subject: NodeId, now: u64, c: Counts, d: Counts)
  {
    var live, local := e.subject == subject && e.expiresAt >= now, IsLocal(p, e);
    var reports := |Matching(entries, Report(subject, now))|;
    var fresher := live && IsDirect(e.kind) && e.issuer != subject
                   && e.issuer !in IndependentIssuers(entries, subject, now);
    && d.direct == c.direct + One(live && IsDirect(e.kind))
    && d.successes == c.successes + One(live && IsSuccess(e.kind))
    && d.failures == c.failures + One(live && IsNegative(e.kind))
    && d.localSuccesses == c.localSuccesses + One(live && local && IsSuccess(e.kind))
    && d.localFailures == c.localFailures + One(live && local && IsNegative(e.kind))
    && d.reports == Min(reports + One(live && e.kind.ViolationReport?), p.maxIndirectReports)
    && d.issuers == c.issuers + One(fresher)
  }

  lemma CountSnoc(entries: seq<Evidence>, e: Evidence, wanted: Evidence -> bool)
    ensures CountIf(entries + [e], wanted) == CountIf(entries, wanted) + One(wanted(e))
  {
    assert (entries + [e])[..|entries|] == entries;
  }

  lemma IssuersSnoc(entries: seq<Evidence>, e: Evidence, subject: NodeId, now: u64)
    ensures IndependentIssuers(entries + [e], subject, now)
            == IndependentIssuers(entries, subject, now)
               + if LiveAbout(e, subject, now) && IsDirect(e.kind) && e.issuer != subject then {e.issuer} else {}
  {
    assert forall x :: x in entries + [e] <==> x in entries || x == e;
  }

  /** Everyone else whose direct experience of the subject is on record and has not expired. */
  ghost function Issuers(entries: seq<Evidence>, subject: NodeId, now: u64): set<NodeId> {
    set i | 0 <= i < |entries| && entries[i].subject == subject && entries[i].expiresAt >= now
            && (IsPositive(entries[i].kind) || IsNegative(entries[i].kind)) && entries[i].issuer != subject
      :: entries[i].issuer
  }

  lemma IssuersAre(entries: seq<Evidence>, subject: NodeId, now: u64)
    ensures IndependentIssuers(entries, subject, now) == Issuers(entries, subject, now)
  {
    forall n | n in IndependentIssuers(entries, subject, now) ensures n in Issuers(entries, subject, now) {
      var e :| e in entries && LiveAbout(e, subject, now) && IsDirect(e.kind) && e.issuer != subject && e.issuer == n;
      var i :| 0 <= i < |entries| && entries[i] == e;
      KindsPartition(e.kind);
    }
    forall n | n in Issuers(entries, subject, now) ensures n in IndependentIssuers(entries, subject, now) {
      var i :| 0 <= i < |entries| && entries[i].subject == subject && entries[i].expiresAt >= now
               && (IsPositive(entries[i].kind) || IsNegative(entries[i].kind)) && entries[i].issuer != subject
               && entries[i].issuer == n;
      assert entries[i] in entries;
      KindsPartition(entries[i].kind);
    }
  }

  lemma StatementCounts(p: Policy, entries: seq<Evidence>, e: Evidence, subject: NodeId, now: u64)
    requires OnePerTopic(entries)
    ensures CountsAfter(p, entries, e, subject, now, CountAll(p, entries, subject, now),
                        CountAll(p, entries + [e], subject, now))
  {
    KindsPartition(e.kind);
    CountSnoc(entries, e, Direct(subject, now));
    CountSnoc(entries, e, Success(subject, now));
    CountSnoc(entries, e, Failure(subject, now));
    CountSnoc(entries, e, LocalSuccess(p, subject, now));
    CountSnoc(entries, e, LocalFailure(p, subject, now));
    ReportsSnoc(p, entries, e, subject, now);
    IssuerCount(entries, e, subject, now);
  }

  lemma ReportsSnoc(p: Policy, entries: seq<Evidence>, e: Evidence, subject: NodeId, now: u64)
    requires OnePerTopic(entries)
    ensures CountIf(entries + [e], Report(subject, now))
            == |Matching(entries, Report(subject, now))|
               + One(LiveAbout(e, subject, now) && e.kind.ViolationReport?)
  {
    CountSnoc(entries, e, Report(subject, now));
    CountIsSize(entries, Report(subject, now));
  }

  lemma IssuerCount(entries: seq<Evidence>, e: Evidence, subject: NodeId, now: u64)
    ensures var known := IndependentIssuers(entries, subject, now);
            |IndependentIssuers(entries + [e], subject, now)|
            == |known| + One(LiveAbout(e, subject, now) && IsDirect(e.kind) && e.issuer != subject
                             && e.issuer !in known)
  {
    var known := IndependentIssuers(entries, subject, now);
    IssuersSnoc(entries, e, subject, now);
    assert known + {} == known && (e.issuer in known ==> known + {e.issuer} == known);
  }

  lemma HasDirectSnoc(entries: seq<Evidence>, e: Evidence, n: NodeId, now: u64)
    ensures HasDirect(entries + [e], n, now) <==>
              || HasDirect(entries, n, now)
              || (e.subject == n && e.issuer != n && e.expiresAt >= now && IsPositive(e.kind))
  {
    assert forall x :: x in entries + [e] <==> x in entries || x == e;
    if HasDirect(entries + [e], n, now) {
      var x :| x in entries + [e] && x.subject == n && x.issuer != n && x.expiresAt >= now && IsPositive(x.kind);
    }
    if HasDirect(entries, n, now) {
      var x :| x in entries && x.subject == n && x.issuer != n && x.expiresAt >= now && IsPositive(x.kind);
      assert x in entries + [e];
    }
  }

  /** Nobody stops being an endorser; nobody becomes one by a failure, a report or a direct statement on the subject. */
  lemma QualifiedGrows(entries: seq<Evidence>, e: Evidence, subject: NodeId, now: u64)
    ensures var before := Qualified(entries, entries, subject, now);
            var after := Qualified(entries + [e], entries + [e], subject, now);
            && before <= after
            && (IsNegative(e.kind) || e.kind.ViolationReport? || (e.subject == subject && IsDirect(e.kind)) ==>
                  after == before)
  {
    var all := entries + [e];
    forall n ensures HasDirect(all, n, now) <==>
                       HasDirect(entries, n, now)
                       || (e.subject == n && e.issuer != n && e.expiresAt >= now && IsPositive(e.kind))
    {
      HasDirectSnoc(entries, e, n, now);
    }
    QualifiedSnoc(all, entries, e, subject, now);
  }

  lemma EndorsementsGrow(p: Policy, entries: seq<Evidence>, e: Evidence, subject: NodeId, now: u64)
    ensures var c, d := CountAll(p, entries, subject, now), CountAll(p, entries + [e], subject, now);
            && c.endorsements <= d.endorsements
            && (IsNegative(e.kind) || e.kind.ViolationReport? || (e.subject == subject && IsDirect(e.kind)) ==>
                  c.endorsements == d.endorsements)
  {
    var all := entries + [e];
    EndorsersCount(p, entries, entries, subject, now);
    EndorsersCount(p, all, all, subject, now);
    QualifiedGrows(entries, e, subject, now);
    SubsetSize(Qualified(entries, entries, subject, now), Qualified(all, all, subject, now));
  }

  /**
   One more statement that is neither a failure nor a report, about anyone, lowers
   nobody's score, and nobody's maturity but that of a subject whose first success
   does not make up for the reports against it.
   */
  lemma GoodNewsHelps(p: Policy, g: Graph, e: Evidence, subject: NodeId, now: u64)
    requires OnePerTopic(g.entries) && (IsPositive(e.kind) || e.kind.Endorsement?)
    ensures var more := g.(entries := g.entries + [e]);
            var c, d := Decide(p, g, subject, now), Decide(p, more, subject, now);
            && c.score <= d.score
            && (Rank(c.maturity) <= Rank(d.maturity) <==>
                  !(c.counts.failures == 0 < p.quarantineFailures && c.counts.successes == 0 && Outweighed(d.counts)))
  {
    var c, d := CountAll(p, g.entries, subject, now), CountAll(p, g.entries + [e], subject, now);
    StatementCounts(p, g.entries, e, subject, now);
    EndorsementsGrow(p, g.entries, e, subject, now);
    CountIsSize(g.entries, Report(subject, now));
    ScoreMonotone(p, c, d, g.rejected, g.rejected);
    RankRisesIff(p, c, d, g.rejected, g.rejected);
  }

  /** One more report never raises the score of its subject. */
  lemma ReportsHurt(p: Policy, g: Graph, e: Evidence, subject: NodeId, now: u64)
    requires OnePerTopic(g.entries) && e.kind.ViolationReport?
    ensures var more := g.(entries := g.entries + [e]);
            Decide(p, more, subject, now).score <= Decide(p, g, subject, now).score
  {
    var c, d := CountAll(p, g.entries, subject, now), CountAll(p, g.entries + [e], subject, now);
    StatementCounts(p, g.entries, e, subject, now);
    EndorsementsGrow(p, g.entries, e, subject, now);
    CountIsSize(g.entries, Report(subject, now));
    ScoreMonotone(p, d, c, g.rejected, g.rejected);
  }

  /** The issuer is somebody else, not the local node, and new to this subject. */
  ghost predicate NewRemoteIssuer(p: Policy, entries: seq<Evidence>, e: Evidence, now: u64) {
    && !IsLocal(p, e) && e.issuer != e.subject
    && e.issuer !in IndependentIssuers(entries, e.subject, now)
  }

  /** Far from the end of a `u64`, as the counts of any list in memory are. */
  ghost predicate Fits(c: Counts) { Credit(c) <= U64_MAX - 200 && Blame(c) <= U64_MAX - 200 }

  /**
   A failure should not raise its subject's score, and it does not exactly when its
   issuer is local, the subject itself or already counted, or when the score is
   pinned at an end. The issuer of a failure counts as an independent issuer like
   that of a success, and weighs more than the failure it reports.
   */
  lemma FailureHurtsIff(p: Policy, g: Graph, e: Evidence, now: u64)
    requires OnePerTopic(g.entries) && IsNegative(e.kind) && e.expiresAt >= now
    requires Fits(CountAll(p, g.entries, e.subject, now))
    ensures var more := g.(entries := g.entries + [e]);
            var c, d := Decide(p, g, e.subject, now), Decide(p, more, e.subject, now);
            var margin := Credit(c.counts) - Blame(c.counts);
            && (d.score <= c.score <==>
                  !NewRemoteIssuer(p, g.entries, e, now) || margin <= -5 || margin >= 100)
            && d.counts.failures == c.counts.failures + 1
  {
    var subject := e.subject;
    var c, d := CountAll(p, g.entries, subject, now), CountAll(p, g.entries + [e], subject, now);
    StatementCounts(p, g.entries, e, subject, now);
    EndorsementsGrow(p, g.entries, e, subject, now);
    CountIsSize(g.entries, Report(subject, now));
    CountLocal(p, g.entries, subject, now);
    KindsPartition(e.kind);
    FailureMargin(p, c, d, IsLocal(p, e), d.issuers == c.issuers + 1, g.rejected);
  }

  /** Local counts are part of the counts. */
  lemma {:induction false} CountLocal(p: Policy, entries: seq<Evidence>, subject: NodeId, now: u64)
    ensures CountIf(entries, LocalFailure(p, subject, now)) <= CountIf(entries, Failure(subject, now))
    ensures CountIf(entries, LocalSuccess(p, subject, now)) <= CountIf(entries, Success(subject, now))
  {
    if entries != [] {
      CountLocal(p, entries[..|entries| - 1], subject, now);
    }
  }

  lemma FailureMargin(p: Policy, c: Counts, d: Counts, local: bool, newIssuer: bool, rejected: u64)
    requires Fits(c) && c.localFailures <= c.failures
    requires d == c.(direct := d.direct, failures := c.failures + 1, localFailures := c.localFailures + One(local),
                     issuers := c.issuers + One(newIssuer))
    ensures var margin := Credit(c) - Blame(c);
            Judge(p, d, rejected).score <= Judge(p, c, rejected).score
            <==> local || !newIssuer || margin <= -5 || margin >= 100
  {
    assert Credit(d) == Credit(c) + if newIssuer then 10 else 0;
    assert Blame(d) == Blame(c) + if local then 20 else 5;
    FittingScore(p, c, rejected);
    FittingScore(p, d, rejected);
  }

  lemma FittingScore(p: Policy, c: Counts, rejected: u64)
    requires Credit(c) <= U64_MAX - 100
    ensures Judge(p, c, rejected).score == Clamp(Credit(c) - Blame(c))
  {
    ScoreIs(p, c, rejected);
  }

  /** A failure reported by a newcomer raises the score of an unknown subject from 0 to 5. */
  lemma FailureCanHelp(p: Policy, e: Evidence, now: u64)
    requires p.localIssuer.Some? && p.localIssuer.value != e.issuer && e.issuer != e.subject
    requires IsNegative(e.kind) && e.expiresAt >= now
    ensures Decide(p, Graph([], 0), e.subject, now).score == 0
    ensures Decide(p, Graph([e], 0), e.subject, now).score == 5
  {
    CountsOfNone(p, e.subject, now);
    CountsOfFailure(p, e, now);
    FirstScores(p);
  }

  lemma FirstScores(p: Policy)
    ensures Judge(p, Counts(0, 0, 0, 0, 0, 0, 0, 0), 0).score == 0
    ensures Judge(p, Counts(1, 0, 1, 0, 0, 0, 1, 0), 0).score == 5
  {
  }

  lemma CountsOfNone(p: Policy, subject: NodeId, now: u64)
    ensures CountAll(p, [], subject, now) == Counts(0, 0, 0, 0, 0, 0, 0, 0)
  {
    NoneCounted([], Direct(subject, now));
    assert IndependentIssuers([], subject, now) == {};
  }

  lemma CountsOfFailure(p: Policy, e: Evidence, now: u64)
    requires !IsLocal(p, e) && e.issuer != e.subject && IsNegative(e.kind) && e.expiresAt >= now
    ensures CountAll(p, [e], e.subject, now) == Counts(1, 0, 1, 0, 0, 0, 1, 0)
  {
    var subject := e.subject;
    assert [] + [e] == [e];
    CountsOfNone(p, subject, now);
    KindsPartition(e.kind);
    assert IndependentIssuers([], subject, now) == {};
    NoReports(subject, now);
    StatementCounts(p, [], e, subject, now);
    EndorsementsGrow(p, [], e, subject, now);
  }

  lemma NoReports(subject: NodeId, now: u64)
    ensures |Matching([], Report(subject, now))| == 0
  {
    assert Matching([], Report(subject, now)) == {};
  }

  /**
   Endorsements and reports alone create nothing: without a single direct statement
   about anyone, everybody's score is 0 and no endorsement counts, however many
   there are.
   */
  lemma EndorsementsAloneGiveNothing(p: Policy, g: Graph, subject: NodeId, now: u64)
    requires OnePerTopic(g.entries) && forall i :: 0 <= i < |g.entries| ==> !IsDirect(g.entries[i].kind)
    ensures var d := Decide(p, g, subject, now);
            && d.counts.endorsements == 0 && d.counts.issuers == 0 && d.counts.direct == 0 && d.score == 0
            && (0 < p.quarantineFailures && 0 < p.trustedSuccesses && 0 < p.establishedSuccesses ==> d.maturity == New)
  {
    var c := CountAll(p, g.entries, subject, now);
    NothingDirect(p, g.entries, subject, now);
    ScoresAreSums(c);
  }

  lemma NothingDirect(p: Policy, entries: seq<Evidence>, subject: NodeId, now: u64)
    requires OnePerTopic(entries) && forall i :: 0 <= i < |entries| ==> !IsDirect(entries[i].kind)
    ensures var c := CountAll(p, entries, subject, now);
            && c.direct == c.successes == c.failures == 0 && c.localSuccesses == c.localFailures == 0
            && c.issuers == c.endorsements == 0
  {
    NoneCounted(entries, Direct(subject, now));
    NoneCounted(entries, Success(subject, now));
    NoneCounted(entries, Failure(subject, now));
    NoneCounted(entries, LocalSuccess(p, subject, now));
    NoneCounted(entries, LocalFailure(p, subject, now));
    NobodyQualifies(p, entries, subject, now);
    assert IndependentIssuers(entries, subject, now) == {};
  }

  lemma {:induction false} NoneCounted(entries: seq<Evidence>, wanted: Evidence -> bool)
    requires forall i :: 0 <= i < |entries| ==> !wanted(entries[i])
    ensures CountIf(entries, wanted) == 0
  {
    if entries != [] {
      NoneCounted(entries[..|entries| - 1], wanted);
    }
  }

  lemma NobodyQualifies(p: Policy, entries: seq<Evidence>, subject: NodeId, now: u64)
    requires forall i :: 0 <= i < |entries| ==> !IsDirect(entries[i].kind)
    ensures |Endorsers(p, entries, entries, subject, now)| == 0
  {
    EndorsersCount(p, entries, entries, subject, now);
    assert forall e :: e in entries ==> !IsPositive(e.kind);
    assert Qualified(entries, entries, subject, now) == {};
  }
}

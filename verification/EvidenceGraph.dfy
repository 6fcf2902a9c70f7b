/**
 Local trust from signed evidence (crates/intelligence/src/trust.rs): a bounded
 list that keeps the newest statement per issuer, subject and kind, and the
 decision read off it.
 */
module EvidenceGraph {
  import opened Machine

  type NodeId = nat

  datatype Kind =
    | JobCompleted | Evaluation | ObservedOnline | ArtifactVerified | Endorsement
    | ProtocolViolation | InvalidSignature | ReplayAttempt | Equivocation | CorruptArtifact
    | CorruptCheckpoint | CapabilityFailure | Timeout | DhtPoisoning | TrainingUpdateRejected | ViolationReport

  /** `genuine` says that the bounds and the signature check out. */
  datatype Evidence = Evidence(
    issuer: NodeId, subject: NodeId, kind: Kind, sequence: u64,
    observedAt: u64, expiresAt: u64, payload: nat, genuine: bool)

  /** What makes two pieces of evidence statements about the same thing. */
  datatype Topic = Topic(issuer: NodeId, subject: NodeId, kind: Kind)

  datatype Maturity = New | Observed | Established | TrustedLocally | Degraded | Quarantined

  datatype Policy = Policy(
    maxEvidence: nat, maxClockSkew: u64, maxEndorsements: nat,
    establishedSuccesses: nat, establishedIssuers: nat, trustedSuccesses: nat, trustedIssuers: nat,
    quarantineFailures: nat, maxIndirectReports: nat, localIssuer: Option<NodeId>)

  predicate ValidPolicy(p: Policy) { p.maxEvidence > 0 && p.maxEndorsements > 0 }

  datatype Graph = Graph(entries: seq<Evidence>, rejected: u64)

  function TopicOf(e: Evidence): Topic { Topic(e.issuer, e.subject, e.kind) }

  predicate IsNegative(k: Kind) {
    k.ProtocolViolation? || k.InvalidSignature? || k.ReplayAttempt? || k.Equivocation? || k.CorruptArtifact?
    || k.CorruptCheckpoint? || k.CapabilityFailure? || k.Timeout? || k.DhtPoisoning? || k.TrainingUpdateRejected?
  }

  predicate IsPositive(k: Kind) { k.JobCompleted? || k.Evaluation? || k.ObservedOnline? || k.ArtifactVerified? }

  predicate IsSuccess(k: Kind) { k.JobCompleted? || k.Evaluation? || k.ArtifactVerified? }

  predicate IsDirect(k: Kind) { !k.Endorsement? && !k.ViolationReport? }

  // ----- insert and expire

  predicate Refused(p: Policy, e: Evidence, now: u64) {
    !e.genuine || e.expiresAt < now || e.observedAt > SatAdd(now, p.maxClockSkew)
  }

  function FindTopic(entries: seq<Evidence>, t: Topic): (r: Option<nat>)
    ensures r.Some? ==> r.value < |entries| && TopicOf(entries[r.value]) == t
    ensures r.None? ==> forall i :: 0 <= i < |entries| ==> TopicOf(entries[i]) != t
  {
    if entries == [] then None
    else if TopicOf(entries[0]) == t then Some(0)
    else
      match FindTopic(entries[1..], t)
      case None => None
      case Some(i) => Some(i + 1)
  }

  /** Orders evidence by (expires_at, observed_at, sequence). */
  function Age(e: Evidence): int {
    (e.expiresAt * (U64_MAX + 1) + e.observedAt) * (U64_MAX + 1) + e.sequence
  }

  /** The first entry of least `Age`. */
  function Oldest(entries: seq<Evidence>): (i: nat)
    requires entries != []
    ensures i < |entries| && forall j :: 0 <= j < |entries| ==> Age(entries[i]) <= Age(entries[j])
  {
    if |entries| == 1 then 0
    else
      var before := Oldest(entries[..|entries| - 1]);
      if Age(entries[|entries| - 1]) < Age(entries[before]) then |entries| - 1 else before
  }

  function MakeRoom(p: Policy, entries: seq<Evidence>): seq<Evidence> {
    if |entries| < p.maxEvidence || entries == [] then entries
    else entries[..Oldest(entries)] + entries[Oldest(entries) + 1..]
  }

  datatype Outcome = Invalid | Stale | Kept

  function Insert(p: Policy, g: Graph, e: Evidence, now: u64): (Graph, Outcome) {
    if Refused(p, e, now) then (g.(rejected := SatAdd(g.rejected, 1)), Invalid)
    else
      var known := FindTopic(g.entries, TopicOf(e));
      if known.Some? then
        if g.entries[known.value].sequence >= e.sequence then (g.(rejected := SatAdd(g.rejected, 1)), Stale)
        else (g.(entries := g.entries[known.value := e]), Kept)
      else (g.(entries := MakeRoom(p, g.entries) + [e]), Kept)
  }

  function LiveOnly(entries: seq<Evidence>, now: u64): seq<Evidence> {
    if entries == [] then []
    else LiveOnly(entries[..|entries| - 1], now)
         + if entries[|entries| - 1].expiresAt >= now then [entries[|entries| - 1]] else []
  }

  datatype Op = InsertOp(evidence: Evidence, now: u64) | ExpireOp(now: u64)

  function Step(p: Policy, g: Graph, op: Op): Graph {
    match op
    case InsertOp(e, now) => Insert(p, g, e, now).0
    case ExpireOp(now) => g.(entries := LiveOnly(g.entries, now))
  }

  function Run(p: Policy, ops: seq<Op>): Graph {
    if ops == [] then Graph([], 0) else Step(p, Run(p, ops[..|ops| - 1]), ops[|ops| - 1])
  }

  ghost predicate OnePerTopic(entries: seq<Evidence>) {
    forall i, j :: 0 <= i < j < |entries| ==> TopicOf(entries[i]) != TopicOf(entries[j])
  }

  ghost predicate GraphGood(p: Policy, g: Graph) { OnePerTopic(g.entries) && |g.entries| <= p.maxEvidence }

  lemma InsertGood(p: Policy, g: Graph, e: Evidence, now: u64)
    requires ValidPolicy(p) && GraphGood(p, g)
    ensures GraphGood(p, Insert(p, g, e, now).0)
  {
  }

  lemma {:induction false} LiveFacts(entries: seq<Evidence>, now: u64)
    ensures |LiveOnly(entries, now)| <= |entries|
    ensures forall e :: e in LiveOnly(entries, now) <==> e in entries && e.expiresAt >= now
    ensures OnePerTopic(entries) ==> OnePerTopic(LiveOnly(entries, now))
  {
    if entries != [] {
      var before, last := entries[..|entries| - 1], entries[|entries| - 1];
      assert entries == before + [last];
      LiveFacts(before, now);
      if OnePerTopic(entries) {
        forall i | 0 <= i < |LiveOnly(before, now)| ensures TopicOf(LiveOnly(before, now)[i]) != TopicOf(last) {
          assert LiveOnly(before, now)[i] in before;
        }
      }
    }
  }

  /** In every reachable graph an issuer has one statement per subject and kind, and the bound holds. */
  lemma {:induction false} ReachableGraphGood(p: Policy, ops: seq<Op>)
    requires ValidPolicy(p)
    ensures GraphGood(p, Run(p, ops))
  {
    if ops != [] {
      var before, last := Run(p, ops[..|ops| - 1]), ops[|ops| - 1];
      ReachableGraphGood(p, ops[..|ops| - 1]);
      match last {
        case InsertOp(e, now) => InsertGood(p, before, e, now);
        case ExpireOp(now) => LiveFacts(before.entries, now);
      }
    }
  }

  // ----- the decision

  predicate LiveAbout(e: Evidence, subject: NodeId, now: u64) { e.subject == subject && e.expiresAt >= now }

  function CountIf(entries: seq<Evidence>, p: Evidence -> bool): nat {
    if entries == [] then 0 else CountIf(entries[..|entries| - 1], p) + if p(entries[|entries| - 1]) then 1 else 0
  }

  function Direct(subject: NodeId, now: u64): Evidence -> bool {
    (e: Evidence) => LiveAbout(e, subject, now) && IsDirect(e.kind)
  }

  function Success(subject: NodeId, now: u64): Evidence -> bool {
    (e: Evidence) => LiveAbout(e, subject, now) && IsDirect(e.kind) && IsSuccess(e.kind)
  }

  function Failure(subject: NodeId, now: u64): Evidence -> bool {
    (e: Evidence) => LiveAbout(e, subject, now) && IsDirect(e.kind) && IsNegative(e.kind)
  }

  predicate IsLocal(p: Policy, e: Evidence) { p.localIssuer.None? || p.localIssuer.value == e.issuer }

  function LocalSuccess(p: Policy, subject: NodeId, now: u64): Evidence -> bool {
    (e: Evidence) => LiveAbout(e, subject, now) && IsDirect(e.kind) && IsLocal(p, e) && IsSuccess(e.kind)
  }

  function LocalFailure(p: Policy, subject: NodeId, now: u64): Evidence -> bool {
    (e: Evidence) => LiveAbout(e, subject, now) && IsDirect(e.kind) && IsLocal(p, e) && IsNegative(e.kind)
  }

  function Report(subject: NodeId, now: u64): Evidence -> bool {
    (e: Evidence) => LiveAbout(e, subject, now) && e.kind.ViolationReport?
  }

  function IndependentIssuers(entries: seq<Evidence>, subject: NodeId, now: u64): set<NodeId> {
    set e | e in entries && LiveAbout(e, subject, now) && IsDirect(e.kind) && e.issuer != subject :: e.issuer
  }

  /** Someone else has vouched for `node` from direct experience. */
  predicate HasDirect(entries: seq<Evidence>, node: NodeId, now: u64) {
    exists e :: e in entries && e.subject == node && e.issuer != node && e.expiresAt >= now && IsPositive(e.kind)
  }

  predicate Endorses(entries: seq<Evidence>, e: Evidence, subject: NodeId, now: u64) {
    LiveAbout(e, subject, now) && e.kind.Endorsement? && e.issuer != subject && HasDirect(entries, e.issuer, now)
  }

  /** The endorsement loop over the first entries `s` of `entries`. */
  function Endorsers(p: Policy, entries: seq<Evidence>, s: seq<Evidence>, subject: NodeId, now: u64): set<NodeId> {
    if s == [] then {}
    else
      var before, last := Endorsers(p, entries, s[..|s| - 1], subject, now), s[|s| - 1];
      if Endorses(entries, last, subject, now) && last.issuer !in before && |before| < p.maxEndorsements
      then before + {last.issuer} else before
  }

  function SatMul(a: nat, b: nat): u64 { Min(a * b, U64_MAX) }

  function Sat(a: nat): u64 { Min(a, U64_MAX) }

  /** The numbers a decision is made from. */
  datatype Counts = Counts(
    direct: nat, successes: nat, failures: nat, localSuccesses: nat, localFailures: nat,
    reports: nat, issuers: nat, endorsements: nat)

  datatype Decision = Decision(
    counts: Counts, score: nat, maturity: Maturity, quarantined: bool,
    acceptedEvidence: nat, rejectedEvidence: nat, reason: string)

  function ReasonFor(maturity: Maturity): string {
    match maturity
    case New => "no independent direct evidence"
    case Observed => "direct evidence exists but has not matured"
    case Established => "bounded direct evidence from independent issuers"
    case TrustedLocally => "local policy threshold satisfied"
    case Degraded => "negative evidence outweighs positive evidence"
    case Quarantined => "local quarantine policy is active"
  }

  function CountAll(p: Policy, entries: seq<Evidence>, subject: NodeId, now: u64): Counts {
    Counts(CountIf(entries, Direct(subject, now)),
           CountIf(entries, Success(subject, now)), CountIf(entries, Failure(subject, now)),
           CountIf(entries, LocalSuccess(p, subject, now)), CountIf(entries, LocalFailure(p, subject, now)),
           Min(CountIf(entries, Report(subject, now)), p.maxIndirectReports),
           |IndependentIssuers(entries, subject, now)|,
           |Endorsers(p, entries, entries, subject, now)|)
  }

  function PositiveScore(c: Counts): u64 {
    SatAdd(SatAdd(SatAdd(SatMul(c.localSuccesses, 15), SatMul(Max(c.successes - c.localSuccesses, 0), 5)),
                  SatMul(c.issuers, 10)), SatMul(c.endorsements, 3))
  }

  function NegativeScore(c: Counts): u64 {
    SatAdd(SatAdd(SatMul(c.localFailures, 20), SatMul(Max(c.failures - c.localFailures, 0), 5)), SatMul(c.reports, 2))
  }

  function Judge(p: Policy, c: Counts, rejected: u64): Decision {
    var positive, negative := PositiveScore(c), NegativeScore(c);
    var quarantined := c.failures >= p.quarantineFailures;
    var maturity :=
      if quarantined then Quarantined
      else if negative > positive && (c.failures > 0 || c.successes > 0) then Degraded
      else if c.successes >= p.trustedSuccesses && c.issuers >= p.trustedIssuers then TrustedLocally
      else if c.successes >= p.establishedSuccesses && c.issuers >= p.establishedIssuers then Established
      else if c.direct > 0 then Observed
      else New;
    Decision(c, Min(SatSub(positive, negative), 100), maturity, quarantined,
             Sat(c.direct + c.endorsements), rejected, ReasonFor(maturity))
  }

  function Decide(p: Policy, g: Graph, subject: NodeId, now: u64): Decision {
    Judge(p, CountAll(p, g.entries, subject, now), g.rejected)
  }
}

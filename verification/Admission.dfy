/**
 The local ledger that admits training contributions
 (`LocalSecurityState` in crates/intelligence/src/security.rs).

 A digest of a contribution is the contribution itself: the source hashes all
 of its fields, and the model treats that hash as injective. Id 0 stands for
 the default (missing) job or branch.
 */
module Admission {
  import opened Machine

  type NodeId = nat
  type JobId = nat
  type Branch = nat

  const MAX_VECTOR := 128

  datatype Policy = Policy(maxReplay: nat, quarantineSeconds: u64, maxTrainingValue: nat)

  predicate ValidPolicy(p: Policy) { p.maxReplay > 0 && p.quarantineSeconds > 0 && p.maxTrainingValue > 0 }

  datatype Contribution = Contribution(
    jobId: JobId, worker: NodeId, branch: Branch,
    planGeneration: u64, generation: u64, sequence: u64, values: seq<int>)

  /** `ReplayKey`, ordered as its derived `Ord` does. */
  datatype Position = Position(jobId: JobId, worker: NodeId, branch: Branch, generation: u64, sequence: u64)

  datatype Stream = Stream(jobId: JobId, worker: NodeId, branch: Branch)

  datatype Mark = Mark(generation: u64, sequence: u64)

  datatype TrainingContext = TrainingContext(jobId: JobId, branch: Branch, planGeneration: u64, generation: u64)

  datatype Ledger = Ledger(
    replay: map<Position, Contribution>, rejected: map<Position, Contribution>,
    latest: map<Stream, Mark>, contexts: map<JobId, TrainingContext>, quarantined: map<NodeId, u64>)

  datatype Outcome =
    | Accepted | UnauthorizedTraining | TrainingBounds | DuplicateTraining
    | Quarantined | InvalidRecord | StaleTraining | TrainingEquivocation

  const EMPTY := Ledger(map[], map[], map[], map[], map[])

  function PositionOf(c: Contribution): Position { Position(c.jobId, c.worker, c.branch, c.generation, c.sequence) }

  function StreamOf(c: Contribution): Stream { Stream(c.jobId, c.worker, c.branch) }

  function MarkOf(c: Contribution): Mark { Mark(c.generation, c.sequence) }

  function ContextOf(c: Contribution): TrainingContext {
    TrainingContext(c.jobId, c.branch, c.planGeneration, c.generation)
  }

  predicate MarkLe(a: Mark, b: Mark) {
    a.generation < b.generation || (a.generation == b.generation && a.sequence <= b.sequence)
  }

  predicate Before(a: Position, b: Position) {
    if a.jobId != b.jobId then a.jobId < b.jobId
    else if a.worker != b.worker then a.worker < b.worker
    else if a.branch != b.branch then a.branch < b.branch
    else if a.generation != b.generation then a.generation < b.generation
    else a.sequence < b.sequence
  }

  // ----- bound_map

  predicate IsFirst(keys: set<Position>, k: Position) {
    k in keys && forall other :: other in keys ==> other == k || Before(k, other)
  }

  lemma FirstExists(keys: set<Position>)
    requires keys != {}
    ensures exists k :: IsFirst(keys, k)
  {
    var k :| k in keys;
    if keys == {k} {
      assert IsFirst(keys, k);
    } else {
      var rest := keys - {k};
      FirstExists(rest);
      var m :| IsFirst(rest, m);
      assert keys == rest + {k};
      assert IsFirst(keys, if Before(k, m) then k else m);
    }
  }

  function First(keys: set<Position>): (k: Position)
    requires keys != {}
    ensures IsFirst(keys, k)
  {
    FirstExists(keys);
    var k :| k in keys && IsFirst(keys, k);
    k
  }

  /** Evict the first keys until there is room for one more entry. */
  function Bound(m: map<Position, Contribution>, max: nat): (r: map<Position, Contribution>)
    ensures r.Keys <= m.Keys && forall k :: k in r ==> r[k] == m[k]
    ensures |r| < max || r == map[]
    ensures |m| < max ==> r == m
    decreases |m|
  {
    if |m| < max || m == map[] then m
    else
      var k := First(m.Keys);
      assert (m - {k}).Keys == m.Keys - {k};
      Bound(m - {k}, max)
  }

  // ----- quarantine

  /** `is_quarantined` first drops every expired entry. */
  function Purge(quarantined: map<NodeId, u64>, now: u64): map<NodeId, u64> {
    map peer | peer in quarantined && quarantined[peer] >= now :: quarantined[peer]
  }

  function Quarantine(policy: Policy, ledger: Ledger, peer: NodeId, now: u64): Ledger {
    var until := SatAdd(now, policy.quarantineSeconds);
    var longest := if peer in ledger.quarantined then Max(ledger.quarantined[peer], until) else until;
    ledger.(quarantined := ledger.quarantined[peer := longest])
  }

  // ----- observe_context

  function ObserveContext(ledger: Ledger, context: TrainingContext): (Ledger, Outcome) {
    if context.jobId == 0 || context.branch == 0 || context.planGeneration == 0 || context.generation == 0 then
      (ledger, InvalidRecord)
    else if context.jobId in ledger.contexts
            && (context.planGeneration < ledger.contexts[context.jobId].planGeneration
                || context.generation < ledger.contexts[context.jobId].generation) then
      (ledger, StaleTraining)
    else if context.jobId in ledger.contexts
            && context.planGeneration == ledger.contexts[context.jobId].planGeneration
            && context.generation == ledger.contexts[context.jobId].generation
            && context.branch != ledger.contexts[context.jobId].branch then
      (ledger, TrainingEquivocation)
    else (ledger.(contexts := ledger.contexts[context.jobId := context]), Accepted)
  }

  // ----- admit_training_update

  predicate OutOfBounds(policy: Policy, c: Contribution) {
    || c.jobId == 0 || c.branch == 0 || c.planGeneration == 0 || c.generation == 0 || c.sequence == 0
    || c.values == [] || |c.values| > MAX_VECTOR
    || exists i :: 0 <= i < |c.values| && Abs(c.values[i]) > policy.maxTrainingValue
  }

  predicate IsDuplicate(ledger: Ledger, c: Contribution) {
    || (PositionOf(c) in ledger.replay && ledger.replay[PositionOf(c)] == c)
    || (PositionOf(c) in ledger.rejected && ledger.rejected[PositionOf(c)] == c)
  }

  function Admit(policy: Policy, ledger: Ledger, c: Contribution, members: seq<NodeId>, now: u64): (Ledger, Outcome) {
    if c.worker !in members then (ledger, UnauthorizedTraining)
    else if OutOfBounds(policy, c) then (ledger, TrainingBounds)
    else if IsDuplicate(ledger, c) then (ledger, DuplicateTraining)
    else
      var purged := ledger.(quarantined := Purge(ledger.quarantined, now));
      if c.worker in purged.quarantined then (purged, Quarantined)
      else
        var (observed, outcome) := ObserveContext(purged, ContextOf(c));
        if outcome != Accepted then (observed, outcome)
        else if StreamOf(c) in observed.latest && !MarkLe(observed.latest[StreamOf(c)], MarkOf(c)) then
          (observed, StaleTraining)
        else if PositionOf(c) in observed.replay then
          var bounded := Bound(observed.rejected, policy.maxReplay);
          var noted := if PositionOf(c) in bounded then bounded else bounded[PositionOf(c) := c];
          (Quarantine(policy, observed.(rejected := noted), c.worker, now), TrainingEquivocation)
        else
          (observed.(replay := Bound(observed.replay, policy.maxReplay)[PositionOf(c) := c],
                     latest := observed.latest[StreamOf(c) := MarkOf(c)]), Accepted)
  }

  // ----- histories

  datatype Op =
    | Submit(contribution: Contribution, members: seq<NodeId>, now: u64)
    | Observe(context: TrainingContext)
    | Punish(peer: NodeId, now: u64)
    | Check(now: u64)

  function Step(policy: Policy, ledger: Ledger, op: Op): (Ledger, Outcome) {
    match op
    case Submit(c, members, now) => Admit(policy, ledger, c, members, now)
    case Observe(context) => ObserveContext(ledger, context)
    case Punish(peer, now) => (Quarantine(policy, ledger, peer, now), Quarantined)
    case Check(now) => (ledger.(quarantined := Purge(ledger.quarantined, now)), Quarantined)
  }

  function Run(policy: Policy, ledger: Ledger, ops: seq<Op>): Ledger {
    if ops == [] then ledger
    else Step(policy, Run(policy, ledger, ops[..|ops| - 1]), ops[|ops| - 1]).0
  }

  /** The outcome of the last operation of a history. */
  function LastOutcome(policy: Policy, ledger: Ledger, ops: seq<Op>): Outcome
    requires ops != []
  {
    Step(policy, Run(policy, ledger, ops[..|ops| - 1]), ops[|ops| - 1]).1
  }

  /** The contributions a history accepted, oldest first. */
  function AcceptedIn(policy: Policy, ledger: Ledger, ops: seq<Op>): seq<Contribution> {
    if ops == [] then []
    else
      var last := ops[|ops| - 1];
      AcceptedIn(policy, ledger, ops[..|ops| - 1])
      + if last.Submit? && LastOutcome(policy, ledger, ops) == Accepted then [last.contribution] else []
  }
}

/**
 Quarantine from both sides: who is held after a history, until when, and what
 becomes of a worker whose quarantine is over.
 */
module AdmissionRelease {
  import opened Machine
  import opened Admission
  import opened AdmissionHistory
  import opened AdmissionConduct
  import opened AdmissionHonesty

  // ----- one operation

  /** The operation convicts the peer: a report from outside, or its own second frame for a recorded position. */
  ghost predicate Convicts(policy: Policy, ledger: Ledger, op: Op, peer: NodeId) {
    match op
    case Submit(c, members, now) =>
      && c.worker == peer && PositionOf(c) in ledger.replay
      && Admit(policy, ledger, c, members, now).1 == TrainingEquivocation
      && InContext(ledger, ContextOf(c))
    case Punish(p, _) => p == peer
    case _ => false
  }

  function TimeOf(op: Op): u64 {
    match op
    case Submit(_, _, now) => now
    case Observe(_) => 0
    case Punish(_, now) => now
    case Check(now) => now
  }

  /** The operation looks at the clock: every check, and every submission that gets past the tests on its frame. */
  ghost predicate Expires(policy: Policy, ledger: Ledger, op: Op) {
    match op
    case Submit(c, members, _) => c.worker in members && !OutOfBounds(policy, c) && !IsDuplicate(ledger, c)
    case Check(_) => true
    case _ => false
  }

  /** The peer's entry is still there when the operation has dropped what had expired. */
  ghost predicate Outlasts(policy: Policy, ledger: Ledger, op: Op, peer: NodeId) {
    peer in ledger.quarantined && (Expires(policy, ledger, op) ==> ledger.quarantined[peer] >= TimeOf(op))
  }

  /** The entry of one peer after an operation. */
  ghost predicate EntryAfter(policy: Policy, ledger: Ledger, op: Op, next: Ledger, peer: NodeId) {
    var until, outlasts := SatAdd(TimeOf(op), policy.quarantineSeconds), Outlasts(policy, ledger, op, peer);
    if Convicts(policy, ledger, op, peer) then
      && peer in next.quarantined
      && next.quarantined[peer] == if outlasts then Max(ledger.quarantined[peer], until) else until
    else
      && (peer in next.quarantined <==> outlasts)
      && (outlasts ==> next.quarantined[peer] == ledger.quarantined[peer])
  }

  lemma ContextAcceptedIff(policy: Policy, ledger: Ledger, c: Contribution)
    requires !OutOfBounds(policy, c)
    ensures ObserveContext(ledger, ContextOf(c)).1 == Accepted <==> InContext(ledger, ContextOf(c))
  {
  }

  lemma SubmitEntry(policy: Policy, ledger: Ledger, c: Contribution, members: seq<NodeId>, now: u64, peer: NodeId)
    ensures EntryAfter(policy, ledger, Submit(c, members, now), Admit(policy, ledger, c, members, now).0, peer)
  {
    if c.worker in members && !OutOfBounds(policy, c) && !IsDuplicate(ledger, c) {
      ObserveIgnoresQuarantine(ledger, Purge(ledger.quarantined, now), ContextOf(c));
      ContextAcceptedIff(policy, ledger, c);
    }
  }

  /**
   Every operation, for every peer: a convicted one is held until the later of its
   running time and the end of a period from now; any other keeps its entry as it
   is until the operation that looks at the clock after its end.
   */
  lemma QuarantineStep(policy: Policy, ledger: Ledger, op: Op, peer: NodeId)
    ensures EntryAfter(policy, ledger, op, Step(policy, ledger, op).0, peer)
  {
    if op.Submit? {
      SubmitEntry(policy, ledger, op.contribution, op.members, op.now, peer);
    }
  }

  /**
   A context is accepted exactly when it is complete and nothing is ahead of it; an
   incomplete one is invalid, another branch of the same plan and generation is an
   equivocation, and the rest is stale. Only acceptance changes anything, and only
   this job's context.
   */
  lemma ObserveEffect(ledger: Ledger, context: TrainingContext)
    ensures var (next, outcome) := ObserveContext(ledger, context);
            var complete := context.jobId != 0 && context.branch != 0 && context.planGeneration != 0
                            && context.generation != 0;
            && (outcome == InvalidRecord <==> !complete)
            && (outcome == Accepted <==> complete && InContext(ledger, context))
            && (outcome == TrainingEquivocation <==>
                  && complete && context.jobId in ledger.contexts
                  && var known := ledger.contexts[context.jobId];
                     && known.planGeneration == context.planGeneration && known.generation == context.generation
                     && known.branch != context.branch)
            && (outcome in {InvalidRecord, Accepted, TrainingEquivocation, StaleTraining})
            && next == (if outcome == Accepted then ledger.(contexts := next.contexts) else ledger)
            && (outcome == Accepted ==>
                  && next.contexts.Keys == ledger.contexts.Keys + {context.jobId}
                  && next.contexts[context.jobId] == context
                  && forall j :: j in ledger.contexts && j != context.jobId ==> next.contexts[j] == ledger.contexts[j])
  {
  }

  // ----- histories

  /** The i-th operation of the history convicts the worker. */
  ghost predicate ConvictedAt(policy: Policy, ops: seq<Op>, worker: NodeId, i: nat)
    requires i < |ops|
  {
    Convicts(policy, Run(policy, EMPTY, ops[..i]), ops[i], worker)
  }

  lemma ConvictionsBefore(policy: Policy, ops: seq<Op>, worker: NodeId, i: nat)
    requires i < |ops| - 1
    ensures ConvictedAt(policy, ops, worker, i) <==> ConvictedAt(policy, ops[..|ops| - 1], worker, i)
  {
    assert ops[..|ops| - 1][..i] == ops[..i];
  }

  /**
   After any history, by any clocks, whose convictions of the worker all happened
   at or before `t`, the worker is not held beyond the end of a period from `t`.
   */
  lemma {:induction false} HeldNoLonger(policy: Policy, ops: seq<Op>, worker: NodeId, t: u64)
    requires forall i :: 0 <= i < |ops| && ConvictedAt(policy, ops, worker, i) ==> TimeOf(ops[i]) <= t
    ensures var ledger := Run(policy, EMPTY, ops);
            worker in ledger.quarantined ==> ledger.quarantined[worker] <= SatAdd(t, policy.quarantineSeconds)
  {
    if ops != [] {
      var before, last := ops[..|ops| - 1], |ops| - 1;
      forall i | 0 <= i < |before| && ConvictedAt(policy, before, worker, i) ensures TimeOf(before[i]) <= t {
        ConvictionsBefore(policy, ops, worker, i);
        assert before[i] == ops[i];
      }
      HeldNoLonger(policy, before, worker, t);
      QuarantineStep(policy, Run(policy, EMPTY, before), ops[last], worker);
      assert Convicts(policy, Run(policy, EMPTY, before), ops[last], worker) ==> ConvictedAt(policy, ops, worker, last);
    }
  }

  /** The i-th operation convicts the worker, at most a period before `now`. */
  ghost predicate RecentAt(policy: Policy, ops: seq<Op>, worker: NodeId, now: u64, i: nat)
    requires i < |ops|
  {
    ConvictedAt(policy, ops, worker, i) && SatAdd(TimeOf(ops[i]), policy.quarantineSeconds) >= now
  }

  ghost predicate Serving(policy: Policy, ops: seq<Op>, worker: NodeId, now: u64) {
    exists i :: 0 <= i < |ops| && RecentAt(policy, ops, worker, now, i)
  }

  lemma RecentBefore(policy: Policy, ops: seq<Op>, worker: NodeId, now: u64, i: nat)
    requires i < |ops| - 1
    ensures RecentAt(policy, ops, worker, now, i) <==> RecentAt(policy, ops[..|ops| - 1], worker, now, i)
  {
    ConvictionsBefore(policy, ops, worker, i);
  }

  lemma ServingSnoc(policy: Policy, ops: seq<Op>, worker: NodeId, now: u64)
    requires ops != []
    ensures Serving(policy, ops, worker, now)
            <==> Serving(policy, ops[..|ops| - 1], worker, now) || RecentAt(policy, ops, worker, now, |ops| - 1)
  {
    var before := ops[..|ops| - 1];
    forall i | 0 <= i < |before|
      ensures RecentAt(policy, ops, worker, now, i) <==> RecentAt(policy, before, worker, now, i)
    {
      RecentBefore(policy, ops, worker, now, i);
    }
  }

  /**
   At a time no operation is later than, a worker is held exactly when one of its
   convictions is at most a period old.
   */
  lemma {:induction false} HeldIff(policy: Policy, ops: seq<Op>, worker: NodeId, now: u64)
    requires forall i :: 0 <= i < |ops| ==> TimeOf(ops[i]) <= now
    ensures HeldUntil(Run(policy, EMPTY, ops), worker, now) <==> Serving(policy, ops, worker, now)
  {
    if ops != [] {
      var before, last := ops[..|ops| - 1], ops[|ops| - 1];
      HeldIff(policy, before, worker, now);
      ServingSnoc(policy, ops, worker, now);
      QuarantineStep(policy, Run(policy, EMPTY, before), last, worker);
    }
  }

  // ----- the answer to a submission

  /** Everything `c` needs apart from its worker being free. */
  ghost predicate Acceptable(policy: Policy, ledger: Ledger, c: Contribution, members: seq<NodeId>) {
    && c.worker in members && !OutOfBounds(policy, c)
    && PositionOf(c) !in ledger.replay
    && !(PositionOf(c) in ledger.rejected && ledger.rejected[PositionOf(c)] == c)
    && (StreamOf(c) in ledger.latest ==> MarkLe(ledger.latest[StreamOf(c)], MarkOf(c)))
    && InContext(ledger, ContextOf(c))
  }

  lemma AnswerIff(policy: Policy, ledger: Ledger, c: Contribution, members: seq<NodeId>, now: u64)
    ensures var held, answer := HeldUntil(ledger, c.worker, now), Admit(policy, ledger, c, members, now).1;
            && (answer == Quarantined <==>
                  held && c.worker in members && !OutOfBounds(policy, c) && !IsDuplicate(ledger, c))
            && (answer == Accepted <==> !held && Acceptable(policy, ledger, c, members))
            && (answer == UnauthorizedTraining <==> c.worker !in members)
            && (answer == DuplicateTraining <==>
                  c.worker in members && !OutOfBounds(policy, c) && IsDuplicate(ledger, c))
  {
    if c.worker in members && !OutOfBounds(policy, c) && !IsDuplicate(ledger, c) {
      ObserveIgnoresQuarantine(ledger, Purge(ledger.quarantined, now), ContextOf(c));
      ContextAcceptedIff(policy, ledger, c);
    }
  }

  lemma AdmitEffect(policy: Policy, ledger: Ledger, c: Contribution, members: seq<NodeId>, now: u64)
    ensures var (next, answer) := Admit(policy, ledger, c, members, now);
            && (answer == Accepted <==> !HeldUntil(ledger, c.worker, now) && Acceptable(policy, ledger, c, members))
            && forall p :: EntryAfter(policy, ledger, Submit(c, members, now), next, p)
  {
    AnswerIff(policy, ledger, c, members, now);
    forall p ensures EntryAfter(policy, ledger, Submit(c, members, now),
                                Admit(policy, ledger, c, members, now).0, p)
    {
      SubmitEntry(policy, ledger, c, members, now, p);
    }
  }

  /**
   With a clock that does not run backwards past the submission, it is answered
   Quarantined exactly when its frame is in order and its worker was convicted at
   most a period ago, and accepted exactly when it was not and the contribution is
   acceptable.
   */
  lemma QuarantinedIff(policy: Policy, ops: seq<Op>, c: Contribution, members: seq<NodeId>, now: u64)
    requires forall i :: 0 <= i < |ops| ==> TimeOf(ops[i]) <= now
    ensures var ledger := Run(policy, EMPTY, ops);
            var serving, answer := Serving(policy, ops, c.worker, now), Admit(policy, ledger, c, members, now).1;
            && (answer == Quarantined <==>
                  serving && c.worker in members && !OutOfBounds(policy, c) && !IsDuplicate(ledger, c))
            && (answer == Accepted <==> !serving && Acceptable(policy, ledger, c, members))
  {
    HeldIff(policy, ops, c.worker, now);
    AnswerIff(policy, Run(policy, EMPTY, ops), c, members, now);
  }

  /**
   Quarantine ends, by whatever clocks: once a period has passed since the last
   conviction, no submission of the worker is answered Quarantined, and each is
   accepted exactly when it is acceptable.
   */
  lemma QuarantineEnds(policy: Policy, ops: seq<Op>, c: Contribution, members: seq<NodeId>, now: u64, t: u64)
    requires forall i :: 0 <= i < |ops| && ConvictedAt(policy, ops, c.worker, i) ==> TimeOf(ops[i]) <= t
    requires now > SatAdd(t, policy.quarantineSeconds)
    ensures var ledger := Run(policy, EMPTY, ops);
            var answer := Admit(policy, ledger, c, members, now).1;
            answer != Quarantined && (answer == Accepted <==> Acceptable(policy, ledger, c, members))
  {
    HeldNoLonger(policy, ops, c.worker, t);
    AnswerIff(policy, Run(policy, EMPTY, ops), c, members, now);
  }

  // ----- what the bound evicts

  /** Making room drops the first keys, and no more of them than it must. */
  lemma {:induction false} BoundEvicts(m: map<Position, Contribution>, max: nat)
    ensures var r := Bound(m, max);
            && |r| == Min(|m|, Max(max - 1, 0))
            && (forall k, j :: k in m && k !in r && j in r ==> Before(k, j))
    decreases |m|
  {
    if |m| >= max && m != map[] {
      var k := First(m.Keys);
      assert (m - {k}).Keys == m.Keys - {k};
      BoundEvicts(m - {k}, max);
    }
  }
}

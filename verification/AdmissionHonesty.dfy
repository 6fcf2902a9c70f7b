/**
 How the ledger treats honest workers that answer the windows of a training job,
 alone and among members that misbehave (crates/node/src/distributed_training.rs
 builds their contributions).
 */
module AdmissionHonesty {
  import opened Machine
  import opened Admission
  import opened AdmissionHistory
  import opened AdmissionConduct

  /** A worker's answer to one window, as `compute_update` fills it in, and when it arrived. */
  datatype Answer = Answer(worker: NodeId, term: u64, window: u64, baseGeneration: u64, values: seq<int>, now: u64)

  /** The contribution `collect_group_updates` submits for an answer. */
  function FrameOf(jobId: JobId, branch: Branch, a: Answer): Contribution {
    Contribution(
      jobId, a.worker, branch, Max(a.term, 1), Max(a.baseGeneration, 1), Max(SatAdd(a.window, 1), 1), a.values)
  }

  function Answers(jobId: JobId, branch: Branch, members: seq<NodeId>, answers: seq<Answer>): (ops: seq<Op>)
    ensures |ops| == |answers|
    ensures forall i :: 0 <= i < |answers| ==>
              ops[i] == Submit(FrameOf(jobId, branch, answers[i]), members, answers[i].now)
  {
    seq(|answers|, i requires 0 <= i < |answers| => Submit(FrameOf(jobId, branch, answers[i]), members, answers[i].now))
  }

  /** Window w is computed from generation w - 1, and the values are within the policy's bounds. */
  ghost predicate WellFormed(policy: Policy, jobId: JobId, branch: Branch, members: seq<NodeId>, a: Answer) {
    && jobId != 0 && branch != 0 && a.worker in members
    && 1 <= a.window < U64_MAX && a.baseGeneration == a.window - 1
    && 0 < |a.values| <= MAX_VECTOR
    && forall i :: 0 <= i < |a.values| ==> Abs(a.values[i]) <= policy.maxTrainingValue
  }

  /** An aggregator collects the windows of its group in order, under non-decreasing terms. */
  ghost predicate Orderly(answers: seq<Answer>) {
    forall i, j :: 0 <= i < j < |answers| ==>
      answers[i].term <= answers[j].term && answers[i].window <= answers[j].window
  }

  ghost predicate OncePerWindow(answers: seq<Answer>) {
    forall i, j :: 0 <= i < j < |answers| && answers[i].worker == answers[j].worker ==>
      answers[i].window != answers[j].window
  }

  /** The ledger holds nothing against `c`: its position is free and no progress is ahead of it. */
  ghost predicate Welcomes(ledger: Ledger, c: Contribution) {
    && PositionOf(c) !in ledger.replay
    && (StreamOf(c) in ledger.latest ==> MarkLe(ledger.latest[StreamOf(c)], MarkOf(c)))
    && (c.jobId in ledger.contexts ==> ContextLe(ledger.contexts[c.jobId], ContextOf(c)))
  }

  lemma WelcomedIsAccepted(policy: Policy, ledger: Ledger, jobId: JobId, branch: Branch, members: seq<NodeId>,
                           a: Answer, now: u64)
    requires WellFormed(policy, jobId, branch, members, a)
    requires ledger.rejected == map[] && ledger.quarantined == map[]
    requires Welcomes(ledger, FrameOf(jobId, branch, a))
    ensures Admit(policy, ledger, FrameOf(jobId, branch, a), members, now).1 == Accepted
  {
    assert Purge(ledger.quarantined, now) == map[];
    assert !OutOfBounds(policy, FrameOf(jobId, branch, a));
  }

  // ----- among other members

  ghost predicate SubmitsBy(op: Op, worker: NodeId) { op.Submit? && op.contribution.worker == worker }

  /** The worker's submissions have rising sequences and no falling generation, and nobody punishes it from outside. */
  ghost predicate Advancing(ops: seq<Op>, worker: NodeId) {
    && (forall i :: 0 <= i < |ops| ==> !(ops[i].Punish? && ops[i].peer == worker))
    && (forall i, j :: 0 <= i < j < |ops| && SubmitsBy(ops[i], worker) && SubmitsBy(ops[j], worker) ==>
          Precedes(ops[i].contribution, ops[j].contribution))
  }

  predicate Precedes(c: Contribution, d: Contribution) { c.sequence < d.sequence && c.generation <= d.generation }

  /** The ledger holds nothing against the worker beyond the given generation and sequence. */
  ghost predicate Clean(ledger: Ledger, worker: NodeId, generation: int, sequence: int) {
    && worker !in ledger.quarantined
    && (forall p :: p in ledger.replay && p.worker == worker ==> p.sequence <= sequence)
    && (forall p :: p in ledger.rejected ==> p.worker != worker)
    && (forall s :: s in ledger.latest && s.worker == worker ==>
          ledger.latest[s].generation <= generation && ledger.latest[s].sequence <= sequence)
  }

  lemma OtherStepClean(policy: Policy, ledger: Ledger, op: Op, worker: NodeId, generation: int, sequence: int)
    requires Clean(ledger, worker, generation, sequence)
    requires !SubmitsBy(op, worker) && !(op.Punish? && op.peer == worker)
    ensures Clean(Step(policy, ledger, op).0, worker, generation, sequence)
  {
    if op.Submit? {
      OtherSubmitClean(policy, ledger, op.contribution, op.members, op.now, worker, generation, sequence);
    }
  }

  lemma OtherSubmitClean(policy: Policy, ledger: Ledger, c: Contribution, members: seq<NodeId>, now: u64,
                         worker: NodeId, generation: int, sequence: int)
    requires Clean(ledger, worker, generation, sequence) && c.worker != worker
    ensures Clean(Admit(policy, ledger, c, members, now).0, worker, generation, sequence)
  {
    if Admit(policy, ledger, c, members, now).1 == Accepted {
      AcceptedShape(policy, ledger, c, members, now);
    } else {
      RefusedShape(policy, ledger, c, members, now);
      RefusedNotes(policy, ledger, c, members, now);
    }
  }

  /** A refusal notes at most a contribution at a used position, and holds at most its worker. */
  lemma RefusedNotes(policy: Policy, ledger: Ledger, c: Contribution, members: seq<NodeId>, now: u64)
    requires Admit(policy, ledger, c, members, now).1 != Accepted
    ensures var next := Admit(policy, ledger, c, members, now).0;
            var used := PositionOf(c) in ledger.replay;
            && next.rejected.Keys <= ledger.rejected.Keys + (if used then {PositionOf(c)} else {})
            && next.quarantined.Keys <= ledger.quarantined.Keys + (if used then {c.worker} else {})
  {
    ObserveIgnoresQuarantine(ledger, Purge(ledger.quarantined, now), ContextOf(c));
  }

  /** What becomes of a contribution that is ahead of everything the ledger holds of its worker. */
  lemma OwnStep(policy: Policy, ledger: Ledger, c: Contribution, members: seq<NodeId>, now: u64,
                generation: int, sequence: int)
    requires Clean(ledger, c.worker, generation, sequence) && generation <= c.generation && sequence < c.sequence
    ensures Clean(Admit(policy, ledger, c, members, now).0, c.worker, c.generation, c.sequence)
    ensures c.worker in members && !OutOfBounds(policy, c) ==>
              (Admit(policy, ledger, c, members, now).1 == Accepted <==> InContext(ledger, ContextOf(c)))
  {
    assert PositionOf(c) !in ledger.replay && PositionOf(c) !in ledger.rejected;
    if Admit(policy, ledger, c, members, now).1 == Accepted {
      AcceptedShape(policy, ledger, c, members, now);
    } else {
      RefusedShape(policy, ledger, c, members, now);
      RefusedNotes(policy, ledger, c, members, now);
    }
    if c.worker in members && !OutOfBounds(policy, c) {
      AheadAcceptedIff(policy, ledger, c, members, now);
    }
  }

  lemma AheadAcceptedIff(policy: Policy, ledger: Ledger, c: Contribution, members: seq<NodeId>, now: u64)
    requires c.worker in members && !OutOfBounds(policy, c) && c.worker !in ledger.quarantined
    requires PositionOf(c) !in ledger.replay && PositionOf(c) !in ledger.rejected
    requires StreamOf(c) in ledger.latest ==> MarkLe(ledger.latest[StreamOf(c)], MarkOf(c))
    ensures Admit(policy, ledger, c, members, now).1 == Accepted <==> InContext(ledger, ContextOf(c))
  {
    ObserveIgnoresQuarantine(ledger, Purge(ledger.quarantined, now), ContextOf(c));
  }

  /** The job has not been moved past this context. */
  ghost predicate InContext(ledger: Ledger, context: TrainingContext) {
    context.jobId in ledger.contexts ==> ContextLe(ledger.contexts[context.jobId], context)
  }

  lemma {:induction false} StaysClean(
    policy: Policy, ops: seq<Op>, worker: NodeId, generation: int, sequence: int)
    requires Advancing(ops, worker)
    requires forall i :: 0 <= i < |ops| && SubmitsBy(ops[i], worker) ==>
               ops[i].contribution.generation <= generation && ops[i].contribution.sequence <= sequence
    ensures Clean(Run(policy, EMPTY, ops), worker, generation, sequence)
  {
    if ops != [] {
      var before, last := ops[..|ops| - 1], ops[|ops| - 1];
      if SubmitsBy(last, worker) {
        var c := last.contribution;
        assert forall i :: 0 <= i < |before| && SubmitsBy(before[i], worker) ==> Precedes(ops[i].contribution, c);
        StaysClean(policy, before, worker, c.generation, c.sequence - 1);
        OwnStep(policy, Run(policy, EMPTY, before), c, last.members, last.now, c.generation, c.sequence - 1);
      } else {
        StaysClean(policy, before, worker, generation, sequence);
        OtherStepClean(policy, Run(policy, EMPTY, before), last, worker, generation, sequence);
      }
    }
  }

  /**
   Whatever other members submit, in whatever order and however often they
   misbehave, a worker that only moves forward stays out of quarantine, and each
   of its contributions is accepted exactly when the job has not been moved past it.
   */
  lemma AdvancingAcceptedIff(policy: Policy, ops: seq<Op>, c: Contribution, members: seq<NodeId>, now: u64)
    requires Advancing(ops + [Submit(c, members, now)], c.worker)
    requires c.worker in members && !OutOfBounds(policy, c)
    ensures var ledger := Run(policy, EMPTY, ops);
            && (Admit(policy, ledger, c, members, now).1 == Accepted <==> InContext(ledger, ContextOf(c)))
            && c.worker !in Admit(policy, ledger, c, members, now).0.quarantined
  {
    var all := ops + [Submit(c, members, now)];
    assert forall i :: 0 <= i < |ops| ==> ops[i] == all[i];
    assert all[|ops|] == Submit(c, members, now) && SubmitsBy(all[|ops|], c.worker);
    assert forall i :: 0 <= i < |ops| && SubmitsBy(all[i], c.worker) ==> Precedes(all[i].contribution, c);
    StaysClean(policy, ops, c.worker, c.generation, c.sequence - 1);
    OwnStep(policy, Run(policy, EMPTY, ops), c, members, now, c.generation, c.sequence - 1);
  }

  lemma StepContexts(policy: Policy, ledger: Ledger, op: Op)
    ensures var next := Step(policy, ledger, op).0;
            || next.contexts == ledger.contexts
            || (ContextSeen(op).Some?
                && next.contexts == ledger.contexts[ContextSeen(op).value.jobId := ContextSeen(op).value])
  {
    if op.Submit? && Step(policy, ledger, op).1 == Accepted {
      AcceptedShape(policy, ledger, op.contribution, op.members, op.now);
    } else {
      RejectedShape(policy, ledger, op);
    }
  }

  /** A job is not moved past a context that no submission and no observation was ahead of. */
  lemma {:induction false} NotOvertaken(policy: Policy, ops: seq<Op>, context: TrainingContext)
    requires forall i :: 0 <= i < |ops| && ContextSeen(ops[i]).Some? && ContextSeen(ops[i]).value.jobId == context.jobId
               ==> ContextLe(ContextSeen(ops[i]).value, context)
    ensures InContext(Run(policy, EMPTY, ops), context)
  {
    if ops != [] {
      NotOvertaken(policy, ops[..|ops| - 1], context);
      StepContexts(policy, Run(policy, EMPTY, ops[..|ops| - 1]), ops[|ops| - 1]);
    }
  }

  /** The worker's submissions among `ops` are its answers to rising windows of one job. */
  ghost predicate AnswersIn(policy: Policy, jobId: JobId, branch: Branch, ops: seq<Op>, answers: seq<Answer>,
                            worker: NodeId) {
    && |answers| == |ops|
    && (forall i :: 0 <= i < |ops| ==> !(ops[i].Punish? && ops[i].peer == worker))
    && (forall i :: 0 <= i < |ops| && SubmitsBy(ops[i], worker) ==>
          && ops[i].contribution == FrameOf(jobId, branch, answers[i])
          && WellFormed(policy, jobId, branch, ops[i].members, answers[i]))
    && (forall i, j :: 0 <= i < j < |ops| && SubmitsBy(ops[i], worker) && SubmitsBy(ops[j], worker) ==>
          answers[i].window < answers[j].window)
  }

  /**
   A worker that answers each window once, in window order, is accepted at a
   window exactly when nobody has moved its job past that window's context,
   whatever the other members of the job submit in between.
   */
  lemma HonestAmongOthersIff(policy: Policy, jobId: JobId, branch: Branch, ops: seq<Op>, answers: seq<Answer>,
                             worker: NodeId, n: nat)
    requires AnswersIn(policy, jobId, branch, ops, answers, worker) && n < |ops| && SubmitsBy(ops[n], worker)
    ensures var ledger := Run(policy, EMPTY, ops[..n]);
            Step(policy, ledger, ops[n]).1 == Accepted
            <==> InContext(ledger, ContextOf(FrameOf(jobId, branch, answers[n])))
  {
    AnswersAdvance(policy, jobId, branch, ops, answers, worker, n);
    var c := FrameOf(jobId, branch, answers[n]);
    assert ops[..n + 1] == ops[..n] + [Submit(c, ops[n].members, ops[n].now)];
    assert !OutOfBounds(policy, c);
    AdvancingAcceptedIff(policy, ops[..n], c, ops[n].members, ops[n].now);
  }

  lemma AnswersAdvance(policy: Policy, jobId: JobId, branch: Branch, ops: seq<Op>, answers: seq<Answer>,
                       worker: NodeId, n: nat)
    requires AnswersIn(policy, jobId, branch, ops, answers, worker) && n < |ops|
    ensures Advancing(ops[..n + 1], worker)
  {
    var first := ops[..n + 1];
    forall i, j | 0 <= i < j < |first| && SubmitsBy(first[i], worker) && SubmitsBy(first[j], worker)
      ensures Precedes(first[i].contribution, first[j].contribution)
    {
      assert first[i] == ops[i] && first[j] == ops[j];
      assert answers[i].window < answers[j].window;
    }
  }

  /**
   Workers that answer each window of a job once, collected in window order under
   non-decreasing terms, are accepted at every window, for any number of windows
   and whatever the replay bound evicts.
   */
  lemma HonestAnswersAccepted(policy: Policy, jobId: JobId, branch: Branch, members: seq<NodeId>,
                              answers: seq<Answer>, n: nat)
    requires n < |answers| && Orderly(answers) && OncePerWindow(answers)
    requires forall i :: 0 <= i < |answers| ==> WellFormed(policy, jobId, branch, members, answers[i])
    ensures var ops := Answers(jobId, branch, members, answers);
            Step(policy, Run(policy, EMPTY, ops[..n]), ops[n]).1 == Accepted
  {
    var ops, a := Answers(jobId, branch, members, answers), answers[n];
    forall i, j | 0 <= i < j < |ops| && SubmitsBy(ops[i], a.worker) && SubmitsBy(ops[j], a.worker)
      ensures answers[i].window < answers[j].window
    {
    }
    HonestAmongOthersIff(policy, jobId, branch, ops, answers, a.worker, n);
    forall i | 0 <= i < n && ContextSeen(ops[i]).Some?
      ensures ContextLe(ContextSeen(ops[i]).value, ContextOf(FrameOf(jobId, branch, a)))
    {
    }
    NotOvertaken(policy, ops[..n], ContextOf(FrameOf(jobId, branch, a)));
  }

  /** And others can move it past: one accepted contribution of a later generation makes the honest answer stale. */
  lemma OthersCanOvertake(policy: Policy, jobId: JobId, branch: Branch, members: seq<NodeId>,
                          a: Answer, ahead: Contribution, now: u64)
    requires WellFormed(policy, jobId, branch, members, a)
    requires ahead.worker in members && ahead.worker != a.worker && !OutOfBounds(policy, ahead)
    requires ahead.jobId == jobId && ahead.generation > FrameOf(jobId, branch, a).generation
    ensures var (next, first) := Admit(policy, EMPTY, ahead, members, now);
            first == Accepted && Admit(policy, next, FrameOf(jobId, branch, a), members, a.now).1 == StaleTraining
  {
    NewcomerAccepted(policy, EMPTY, ahead, members, now);
    var (next, _) := Admit(policy, EMPTY, ahead, members, now);
    assert next.quarantined == map[] && Purge(map[], a.now) == map[];
    assert Bound(map[], policy.maxReplay) == map[];
    assert !OutOfBounds(policy, FrameOf(jobId, branch, a));
  }

  // ----- a window answered twice

  /**
   The term is part of a frame but not of its position. So a worker that answers
   a window a second time, at any later time, is told it is stale under a lower
   term and a duplicate when it repeats itself, and is taken for an equivocator in
   every other case: under a higher term even when it repeats its values.
   */
  lemma SecondAnswerOutcome(policy: Policy, ledger: Ledger, jobId: JobId, branch: Branch, members: seq<NodeId>,
                            a: Answer, b: Answer)
    requires WellFormed(policy, jobId, branch, members, a) && WellFormed(policy, jobId, branch, members, b)
    requires a.worker == b.worker && a.window == b.window
    requires ledger.rejected == map[] && ledger.quarantined == map[]
    requires Welcomes(ledger, FrameOf(jobId, branch, a))
    ensures var (next, _) := Admit(policy, ledger, FrameOf(jobId, branch, a), members, a.now);
            var (last, outcome) := Admit(policy, next, FrameOf(jobId, branch, b), members, b.now);
            if Max(b.term, 1) < Max(a.term, 1) then outcome == StaleTraining
            else if Max(b.term, 1) == Max(a.term, 1) && b.values == a.values then outcome == DuplicateTraining
            else outcome == TrainingEquivocation && HeldUntil(last, b.worker, SatAdd(b.now, policy.quarantineSeconds))
  {
    var c, again := FrameOf(jobId, branch, a), FrameOf(jobId, branch, b);
    WelcomedIsAccepted(policy, ledger, jobId, branch, members, a, a.now);
    AcceptedShape(policy, ledger, c, members, a.now);
    var (next, _) := Admit(policy, ledger, c, members, a.now);
    assert Purge(map[], a.now) == map[] && Purge(map[], b.now) == map[];
    SecondFrame(policy, next, c, again, members, b.now);
  }

  lemma SecondFrame(
    policy: Policy, ledger: Ledger, c: Contribution, again: Contribution, members: seq<NodeId>, now: u64)
    requires again.worker in members && !OutOfBounds(policy, again)
    requires PositionOf(again) == PositionOf(c) && PositionOf(c) in ledger.replay && ledger.replay[PositionOf(c)] == c
    requires ledger.rejected == map[] && ledger.quarantined == map[]
    requires StreamOf(c) in ledger.latest && ledger.latest[StreamOf(c)] == MarkOf(c)
    requires c.jobId in ledger.contexts && ledger.contexts[c.jobId] == ContextOf(c)
    ensures var (next, outcome) := Admit(policy, ledger, again, members, now);
            if again.planGeneration < c.planGeneration then outcome == StaleTraining
            else if again == c then outcome == DuplicateTraining
            else outcome == TrainingEquivocation && HeldUntil(next, c.worker, SatAdd(now, policy.quarantineSeconds))
  {
    assert Purge(ledger.quarantined, now) == map[];
    if again.planGeneration >= c.planGeneration && again != c {
      EquivocationAt(policy, ledger, again, members, now);
    }
  }

  /** A different frame for a recorded position, on time and in context, is an equivocation. */
  lemma EquivocationAt(policy: Policy, ledger: Ledger, c: Contribution, members: seq<NodeId>, now: u64)
    requires c.worker in members && !OutOfBounds(policy, c) && !IsDuplicate(ledger, c)
    requires ledger.quarantined == map[] && PositionOf(c) in ledger.replay
    requires ObserveContext(ledger, ContextOf(c)).1 == Accepted
    requires StreamOf(c) in ledger.latest ==> MarkLe(ledger.latest[StreamOf(c)], MarkOf(c))
    ensures Admit(policy, ledger, c, members, now).1 == TrainingEquivocation
    ensures HeldUntil(Admit(policy, ledger, c, members, now).0, c.worker, SatAdd(now, policy.quarantineSeconds))
  {
    assert Purge(ledger.quarantined, now) == map[];
    ObserveIgnoresQuarantine(ledger, Purge(ledger.quarantined, now), ContextOf(c));
  }
}

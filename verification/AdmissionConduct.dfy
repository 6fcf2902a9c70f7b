/**
 How the ledger treats misconduct over time: a worker that sends two different
 frames for one position, and a quarantined worker.
 */
module AdmissionConduct {
  import opened Machine
  import opened Admission
  import opened AdmissionHistory

  // ----- two frames for one position

  /** One submission of either the first or the second frame. */
  datatype Play = Play(second: bool, now: u64)

  ghost predicate Rivals(policy: Policy, f: Contribution, g: Contribution, members: seq<NodeId>) {
    && g == f.(values := g.values) && g != f
    && f.worker in members && !OutOfBounds(policy, f) && !OutOfBounds(policy, g)
  }

  function Frame(f: Contribution, g: Contribution, second: bool): Contribution { if second then g else f }

  function Submissions(f: Contribution, g: Contribution, members: seq<NodeId>, plays: seq<Play>): (ops: seq<Op>)
    ensures |ops| == |plays|
    ensures forall i :: 0 <= i < |plays| ==> ops[i] == Submit(Frame(f, g, plays[i].second), members, plays[i].now)
  {
    seq(|plays|, i requires 0 <= i < |plays| => Submit(Frame(f, g, plays[i].second), members, plays[i].now))
  }

  /** Has the frame that did not come first been played among the first `n` submissions? */
  predicate RivalSeen(plays: seq<Play>, n: nat)
    requires n <= |plays|
  {
    exists i :: 0 <= i < n && plays[i].second != plays[0].second
  }

  function Expected(plays: seq<Play>, n: nat): Outcome
    requires n < |plays|
  {
    if n == 0 then Accepted
    else if plays[n].second != plays[0].second && !RivalSeen(plays, n) then TrainingEquivocation
    else DuplicateTraining
  }

  ghost predicate AfterPlays(ledger: Ledger, first: Contribution, other: Contribution, rivalSeen: bool) {
    && ledger.replay == map[PositionOf(first) := first]
    && ledger.rejected == (if rivalSeen then map[PositionOf(first) := other] else map[])
    && ledger.latest == map[StreamOf(first) := MarkOf(first)]
    && ledger.contexts == map[first.jobId := ContextOf(first)]
    && (!rivalSeen ==> ledger.quarantined == map[])
  }

  lemma FirstPlay(policy: Policy, c: Contribution, other: Contribution, members: seq<NodeId>, now: u64)
    requires c.worker in members && !OutOfBounds(policy, c)
    ensures Admit(policy, EMPTY, c, members, now).1 == Accepted
    ensures AfterPlays(Admit(policy, EMPTY, c, members, now).0, c, other, false)
  {
    NewcomerAccepted(policy, EMPTY, c, members, now);
    assert Bound(map[], policy.maxReplay) == map[];
  }

  /** The rival frame is caught once; from then on both frames are duplicates. */
  lemma LaterPlay(policy: Policy, ledger: Ledger, c: Contribution, other: Contribution, members: seq<NodeId>,
                  rivalSeen: bool, rivalNow: bool, now: u64)
    requires Rivals(policy, c, other, members) && AfterPlays(ledger, c, other, rivalSeen)
    ensures var (next, outcome) := Admit(policy, ledger, if rivalNow then other else c, members, now);
            && outcome == (if rivalNow && !rivalSeen then TrainingEquivocation else DuplicateTraining)
            && AfterPlays(next, c, other, rivalSeen || rivalNow)
  {
    if rivalNow && !rivalSeen {
      assert Purge(ledger.quarantined, now) == map[];
      assert Bound(map[], policy.maxReplay) == map[];
      assert ledger.contexts[c.jobId := ContextOf(c)] == ledger.contexts;
    }
  }

  lemma NextPlay(policy: Policy, ledger: Ledger, f: Contribution, g: Contribution, members: seq<NodeId>,
                 plays: seq<Play>, n: nat)
    requires Rivals(policy, f, g, members) && n < |plays|
    requires if n == 0 then ledger == EMPTY
             else AfterPlays(ledger, Frame(f, g, plays[0].second), Frame(f, g, !plays[0].second), RivalSeen(plays, n))
    ensures var (next, outcome) := Step(policy, ledger, Submissions(f, g, members, plays)[n]);
            && outcome == Expected(plays, n)
            && AfterPlays(next, Frame(f, g, plays[0].second), Frame(f, g, !plays[0].second), RivalSeen(plays, n + 1))
  {
    var first, other := Frame(f, g, plays[0].second), Frame(f, g, !plays[0].second);
    if n == 0 {
      FirstPlay(policy, first, other, members, plays[0].now);
    } else {
      var rivalNow := plays[n].second != plays[0].second;
      LaterPlay(policy, ledger, first, other, members, RivalSeen(plays, n), rivalNow, plays[n].now);
      assert RivalSeen(plays, n + 1) <==> RivalSeen(plays, n) || rivalNow;
    }
  }

  lemma {:induction false} PlaysLedger(policy: Policy, f: Contribution, g: Contribution, members: seq<NodeId>,
                                       plays: seq<Play>, n: nat)
    requires Rivals(policy, f, g, members) && 0 < n <= |plays|
    ensures AfterPlays(Run(policy, EMPTY, Submissions(f, g, members, plays)[..n]),
                       Frame(f, g, plays[0].second), Frame(f, g, !plays[0].second), RivalSeen(plays, n))
  {
    var ops := Submissions(f, g, members, plays);
    if n > 1 {
      PlaysLedger(policy, f, g, members, plays, n - 1);
    }
    NextPlay(policy, Run(policy, EMPTY, ops[..n - 1]), f, g, members, plays, n - 1);
    assert ops[..n][..n - 1] == ops[..n - 1];
  }

  /**
   Every sequence of submissions of two frames that differ only in their values,
   at any times, is answered alike: the first is accepted, the first appearance
   of the other is an equivocation, and everything else is a duplicate.
   */
  lemma RivalFramesAnswered(policy: Policy, f: Contribution, g: Contribution, members: seq<NodeId>,
                            plays: seq<Play>, n: nat)
    requires Rivals(policy, f, g, members) && n < |plays|
    ensures Step(policy, Run(policy, EMPTY, Submissions(f, g, members, plays)[..n]),
                 Submissions(f, g, members, plays)[n]).1 == Expected(plays, n)
  {
    if n > 0 {
      PlaysLedger(policy, f, g, members, plays, n);
    }
    NextPlay(policy, Run(policy, EMPTY, Submissions(f, g, members, plays)[..n]), f, g, members, plays, n);
  }

  // ----- quarantine

  predicate NotLaterThan(op: Op, t: u64) {
    match op
    case Submit(_, _, now) => now <= t
    case Observe(_) => true
    case Punish(_, now) => now <= t
    case Check(now) => now <= t
  }

  ghost predicate HeldUntil(ledger: Ledger, worker: NodeId, until: u64) {
    worker in ledger.quarantined && ledger.quarantined[worker] >= until
  }

  lemma EquivocationHolds(policy: Policy, ledger: Ledger, c: Contribution, members: seq<NodeId>, now: u64)
    requires PositionOf(c) in ledger.replay
    requires Admit(policy, ledger, c, members, now).1 == TrainingEquivocation
    requires ObserveContext(ledger, ContextOf(c)).1 == Accepted
    ensures HeldUntil(Admit(policy, ledger, c, members, now).0, c.worker, SatAdd(now, policy.quarantineSeconds))
  {
    ObserveIgnoresQuarantine(ledger, Purge(ledger.quarantined, now), ContextOf(c));
  }

  lemma StepHolds(policy: Policy, ledger: Ledger, op: Op, worker: NodeId, until: u64)
    requires HeldUntil(ledger, worker, until) && NotLaterThan(op, until)
    ensures HeldUntil(Step(policy, ledger, op).0, worker, until)
    ensures op.Submit? && op.contribution.worker == worker ==> Step(policy, ledger, op).1 != Accepted
  {
  }

  /** Until the clock passes the end of its quarantine, nothing from the worker is accepted, whatever else happens. */
  lemma {:induction false} QuarantineHolds(policy: Policy, ledger: Ledger, ops: seq<Op>, worker: NodeId, until: u64)
    requires HeldUntil(ledger, worker, until)
    requires forall i :: 0 <= i < |ops| ==> NotLaterThan(ops[i], until)
    ensures HeldUntil(Run(policy, ledger, ops), worker, until)
    ensures forall c :: c in AcceptedIn(policy, ledger, ops) ==> c.worker != worker
  {
    if ops != [] {
      var before, last := ops[..|ops| - 1], ops[|ops| - 1];
      QuarantineHolds(policy, ledger, before, worker, until);
      StepHolds(policy, Run(policy, ledger, before), last, worker, until);
    }
  }

  /** From an equivocation at time `now` to the end of the quarantine period, its author is shut out. */
  lemma EquivocatorShutOut(
    policy: Policy, ledger: Ledger, c: Contribution, members: seq<NodeId>, now: u64, later: seq<Op>)
    requires PositionOf(c) in ledger.replay
    requires Admit(policy, ledger, c, members, now).1 == TrainingEquivocation
    requires ObserveContext(ledger, ContextOf(c)).1 == Accepted
    requires forall i :: 0 <= i < |later| ==> NotLaterThan(later[i], SatAdd(now, policy.quarantineSeconds))
    ensures var next := Admit(policy, ledger, c, members, now).0;
            forall d :: d in AcceptedIn(policy, next, later) ==> d.worker != c.worker
  {
    EquivocationHolds(policy, ledger, c, members, now);
    QuarantineHolds(policy, Admit(policy, ledger, c, members, now).0, later, c.worker,
                    SatAdd(now, policy.quarantineSeconds));
  }
}

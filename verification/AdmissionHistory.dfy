/** What the admission ledger guarantees over every history of operations. */
module AdmissionHistory {
  import opened Machine
  import opened Admission

  /** The ledger remembers, for every accepted contribution, its stream's and its job's progress. */
  ghost predicate Remembers(ledger: Ledger, acc: seq<Contribution>) {
    forall c :: c in acc ==>
      && StreamOf(c) in ledger.latest && MarkLe(MarkOf(c), ledger.latest[StreamOf(c)])
      && c.jobId in ledger.contexts && ContextLe(ContextOf(c), ledger.contexts[c.jobId])
  }

  ghost predicate ContextLe(a: TrainingContext, b: TrainingContext) {
    && a.planGeneration <= b.planGeneration && a.generation <= b.generation
    && (a.planGeneration == b.planGeneration && a.generation == b.generation ==> a.branch == b.branch)
  }

  ghost predicate NothingEvicted(policy: Policy, ledger: Ledger, acc: seq<Contribution>) {
    |acc| <= policy.maxReplay ==>
      |ledger.replay| == |acc| && forall c :: c in acc ==> PositionOf(c) in ledger.replay
  }

  ghost predicate StreamsForward(acc: seq<Contribution>) {
    forall i, j :: 0 <= i < j < |acc| && StreamOf(acc[i]) == StreamOf(acc[j]) ==> MarkLe(MarkOf(acc[i]), MarkOf(acc[j]))
  }

  ghost predicate OneBranch(acc: seq<Contribution>) {
    forall i, j :: 0 <= i < j < |acc| && acc[i].jobId == acc[j].jobId
                   && acc[i].planGeneration == acc[j].planGeneration && acc[i].generation == acc[j].generation
                   ==> acc[i].branch == acc[j].branch
  }

  ghost predicate PositionsDistinct(acc: seq<Contribution>) {
    forall i, j :: 0 <= i < j < |acc| ==> PositionOf(acc[i]) != PositionOf(acc[j])
  }

  ghost predicate HistoryInv(policy: Policy, ledger: Ledger, acc: seq<Contribution>) {
    && Remembers(ledger, acc)
    && NothingEvicted(policy, ledger, acc)
    && StreamsForward(acc)
    && OneBranch(acc)
    && (|acc| <= policy.maxReplay ==> PositionsDistinct(acc))
  }

  lemma ObserveRemembers(ledger: Ledger, context: TrainingContext, acc: seq<Contribution>)
    requires Remembers(ledger, acc)
    ensures Remembers(ObserveContext(ledger, context).0, acc)
    ensures ObserveContext(ledger, context).1 == Accepted ==>
              forall c :: c in acc && c.jobId == context.jobId ==> ContextLe(ContextOf(c), context)
  {
  }

  /** What an accepted submission did to the ledger. */
  lemma AcceptedShape(policy: Policy, ledger: Ledger, c: Contribution, members: seq<NodeId>, now: u64)
    requires Admit(policy, ledger, c, members, now).1 == Accepted
    ensures var next := Admit(policy, ledger, c, members, now).0;
            && next.latest == ledger.latest[StreamOf(c) := MarkOf(c)]
            && next.contexts == ledger.contexts[c.jobId := ContextOf(c)]
            && next.replay == Bound(ledger.replay, policy.maxReplay)[PositionOf(c) := c]
            && next.rejected == ledger.rejected
            && next.quarantined == Purge(ledger.quarantined, now)
            && PositionOf(c) !in ledger.replay
            && c.worker !in Purge(ledger.quarantined, now)
            && (StreamOf(c) in ledger.latest ==> MarkLe(ledger.latest[StreamOf(c)], MarkOf(c)))
            && ObserveContext(ledger, ContextOf(c)).1 == Accepted
  {
  }

  function ContextSeen(op: Op): Option<TrainingContext> {
    match op
    case Submit(c, _, _) => Some(ContextOf(c))
    case Observe(context) => Some(context)
    case _ => None
  }

  lemma ObserveIgnoresQuarantine(ledger: Ledger, quarantined: map<NodeId, u64>, context: TrainingContext)
    ensures ObserveContext(ledger.(quarantined := quarantined), context).0
            == ObserveContext(ledger, context).0.(quarantined := quarantined)
    ensures ObserveContext(ledger.(quarantined := quarantined), context).1 == ObserveContext(ledger, context).1
  {
  }

  lemma RejectedShape(policy: Policy, ledger: Ledger, op: Op)
    requires !(op.Submit? && Step(policy, ledger, op).1 == Accepted)
    ensures var next := Step(policy, ledger, op).0;
            && next.latest == ledger.latest && next.replay == ledger.replay
            && (next.contexts == ledger.contexts
                || (ContextSeen(op).Some?
                    && next.contexts == ObserveContext(ledger, ContextSeen(op).value).0.contexts))
  {
    if op.Submit? {
      RefusedShape(policy, ledger, op.contribution, op.members, op.now);
    }
  }

  lemma RefusedShape(policy: Policy, ledger: Ledger, c: Contribution, members: seq<NodeId>, now: u64)
    requires Admit(policy, ledger, c, members, now).1 != Accepted
    ensures var next := Admit(policy, ledger, c, members, now).0;
            && next.latest == ledger.latest && next.replay == ledger.replay
            && (next.contexts == ledger.contexts
                || next.contexts == ObserveContext(ledger, ContextOf(c)).0.contexts)
  {
    ObserveIgnoresQuarantine(ledger, Purge(ledger.quarantined, now), ContextOf(c));
  }

  lemma MarkLeTransitive(a: Mark, b: Mark, c: Mark)
    requires MarkLe(a, b) && MarkLe(b, c)
    ensures MarkLe(a, c)
  {
  }

  lemma AcceptedIsLatest(
    policy: Policy, ledger: Ledger, c: Contribution, members: seq<NodeId>, now: u64, acc: seq<Contribution>)
    requires Remembers(ledger, acc)
    requires Admit(policy, ledger, c, members, now).1 == Accepted
    ensures Remembers(Admit(policy, ledger, c, members, now).0, acc + [c])
    ensures forall d :: d in acc && StreamOf(d) == StreamOf(c) ==> MarkLe(MarkOf(d), MarkOf(c))
    ensures forall d :: d in acc && d.jobId == c.jobId ==> ContextLe(ContextOf(d), ContextOf(c))
  {
    AcceptedShape(policy, ledger, c, members, now);
    ObserveRemembers(ledger, ContextOf(c), acc);
    forall d | d in acc && StreamOf(d) == StreamOf(c) ensures MarkLe(MarkOf(d), MarkOf(c)) {
      MarkLeTransitive(MarkOf(d), ledger.latest[StreamOf(c)], MarkOf(c));
    }
  }

  lemma AcceptedIsKept(
    policy: Policy, ledger: Ledger, c: Contribution, members: seq<NodeId>, now: u64, acc: seq<Contribution>)
    requires NothingEvicted(policy, ledger, acc)
    requires Admit(policy, ledger, c, members, now).1 == Accepted
    ensures NothingEvicted(policy, Admit(policy, ledger, c, members, now).0, acc + [c])
    ensures |acc| < policy.maxReplay ==> forall d :: d in acc ==> PositionOf(d) != PositionOf(c)
  {
    AcceptedShape(policy, ledger, c, members, now);
    var next := Admit(policy, ledger, c, members, now).0;
    if |acc| + 1 <= policy.maxReplay {
      assert next.replay == ledger.replay[PositionOf(c) := c];
      GrowsByOne(ledger.replay, PositionOf(c), c);
    }
  }

  lemma GrowsByOne(m: map<Position, Contribution>, k: Position, c: Contribution)
    requires k !in m
    ensures |m[k := c]| == |m| + 1
  {
    assert m[k := c].Keys == m.Keys + {k};
  }

  lemma AcceptKeeps(
    policy: Policy, ledger: Ledger, c: Contribution, members: seq<NodeId>, now: u64, acc: seq<Contribution>)
    requires HistoryInv(policy, ledger, acc)
    requires Admit(policy, ledger, c, members, now).1 == Accepted
    ensures HistoryInv(policy, Admit(policy, ledger, c, members, now).0, acc + [c])
  {
    AcceptedIsLatest(policy, ledger, c, members, now, acc);
    AcceptedIsKept(policy, ledger, c, members, now, acc);
    forall i | 0 <= i < |acc| ensures acc[i] in acc {}
  }

  lemma RejectKeeps(policy: Policy, ledger: Ledger, op: Op, acc: seq<Contribution>)
    requires HistoryInv(policy, ledger, acc)
    requires !(op.Submit? && Step(policy, ledger, op).1 == Accepted)
    ensures HistoryInv(policy, Step(policy, ledger, op).0, acc)
  {
    RejectedShape(policy, ledger, op);
    if ContextSeen(op).Some? {
      ObserveRemembers(ledger, ContextSeen(op).value, acc);
    }
  }

  lemma {:induction false} HistoryHolds(policy: Policy, ops: seq<Op>)
    ensures HistoryInv(policy, Run(policy, EMPTY, ops), AcceptedIn(policy, EMPTY, ops))
  {
    if ops != [] {
      var before, last := ops[..|ops| - 1], ops[|ops| - 1];
      HistoryHolds(policy, before);
      var ledger, acc := Run(policy, EMPTY, before), AcceptedIn(policy, EMPTY, before);
      if last.Submit? && LastOutcome(policy, EMPTY, ops) == Accepted {
        AcceptKeeps(policy, ledger, last.contribution, last.members, last.now, acc);
      } else {
        RejectKeeps(policy, ledger, last, acc);
        assert acc + [] == acc;
      }
    }
  }

  /**
   Over every history: positions accepted on one stream never go backwards, no
   plan and generation of a job ever has accepted contributions of two branches,
   and until the replay bound is passed no position is accepted twice.
   */
  lemma AcceptedContributionsAreOrdered(policy: Policy, ops: seq<Op>)
    ensures var acc := AcceptedIn(policy, EMPTY, ops);
            && StreamsForward(acc)
            && OneBranch(acc)
            && (|acc| <= policy.maxReplay ==> PositionsDistinct(acc))
  {
    HistoryHolds(policy, ops);
  }

  /**
   Past the bound the ledger may accept a used position again. It accepts any
   contribution there, the same or another, exactly when the replay entry of the
   position is gone, no rejection of that contribution is on record, its worker is
   free, and the position still is the last of its stream and current for its job.
   */
  lemma ReusedPositionIff(
    policy: Policy, ops: seq<Op>, c: Contribution, again: Contribution, members: seq<NodeId>, now: u64)
    requires c in AcceptedIn(policy, EMPTY, ops) && PositionOf(again) == PositionOf(c)
    requires again.worker in members && !OutOfBounds(policy, again)
    ensures var ledger := Run(policy, EMPTY, ops);
            StreamOf(c) in ledger.latest && c.jobId in ledger.contexts
            && (Admit(policy, ledger, again, members, now).1 == Accepted <==>
                && PositionOf(c) !in ledger.replay
                && !(PositionOf(c) in ledger.rejected && ledger.rejected[PositionOf(c)] == again)
                && c.worker !in Purge(ledger.quarantined, now)
                && ledger.latest[StreamOf(c)] == MarkOf(c)
                && CurrentFor(ledger.contexts[c.jobId], again))
  {
    HistoryHolds(policy, ops);
    var ledger := Run(policy, EMPTY, ops);
    assert Remembers(ledger, AcceptedIn(policy, EMPTY, ops));
    ObserveIgnoresQuarantine(ledger, Purge(ledger.quarantined, now), ContextOf(again));
  }

  /** The contribution is of the job's generation, and of a later plan or of the same plan and branch. */
  ghost predicate CurrentFor(context: TrainingContext, c: Contribution) {
    && context.generation == c.generation
    && (|| context.planGeneration < c.planGeneration
        || (context.planGeneration == c.planGeneration && context.branch == c.branch))
  }

  /** A first contribution of a job and stream, from a worker in good standing, is accepted. */
  lemma NewcomerAccepted(policy: Policy, ledger: Ledger, c: Contribution, members: seq<NodeId>, now: u64)
    requires c.worker in members && !OutOfBounds(policy, c) && ledger.quarantined == map[]
    requires PositionOf(c) !in ledger.replay && PositionOf(c) !in ledger.rejected
    requires StreamOf(c) in ledger.latest ==> ledger.latest[StreamOf(c)] == MarkOf(c)
    requires c.jobId in ledger.contexts ==> ledger.contexts[c.jobId] == ContextOf(c)
    ensures Admit(policy, ledger, c, members, now)
            == (ledger.(replay := Bound(ledger.replay, policy.maxReplay)[PositionOf(c) := c],
                        latest := ledger.latest[StreamOf(c) := MarkOf(c)],
                        contexts := ledger.contexts[c.jobId := ContextOf(c)]), Accepted)
  {
    assert Purge(ledger.quarantined, now) == map[];
  }

  lemma RunSnoc(policy: Policy, ledger: Ledger, ops: seq<Op>, op: Op)
    ensures Run(policy, ledger, ops + [op]) == Step(policy, Run(policy, ledger, ops), op).0
    ensures AcceptedIn(policy, ledger, ops + [op])
            == AcceptedIn(policy, ledger, ops)
               + if op.Submit? && Step(policy, Run(policy, ledger, ops), op).1 == Accepted
                 then [op.contribution] else []
  {
    assert (ops + [op])[..|ops|] == ops;
  }

  /** With one slot, the contribution of a second worker pushes out the first, which is then accepted again. */
  lemma EvictionForgets(policy: Policy, first: Contribution, second: Contribution, members: seq<NodeId>)
    requires policy.maxReplay == 1
    requires first.worker in members && !OutOfBounds(policy, first)
    requires second.worker in members && !OutOfBounds(policy, second)
    requires first.worker != second.worker && ContextOf(first) == ContextOf(second)
    ensures var a, b := Submit(first, members, 0), Submit(second, members, 0);
            AcceptedIn(policy, EMPTY, [] + [a] + [b] + [a]) == [first, second, first]
  {
    var a, b := Submit(first, members, 0), Submit(second, members, 0);
    var one := Pushed(EMPTY, first);
    var two := Pushed(one, second);
    PushOut(policy, EMPTY, first, members);
    PushOut(policy, one, second, members);
    PushOut(policy, two, first, members);
    ThreeAccepted(policy, one, two, a, b, a);
  }

  lemma ThreeAccepted(policy: Policy, one: Ledger, two: Ledger, a: Op, b: Op, c: Op)
    requires a.Submit? && b.Submit? && c.Submit?
    requires Step(policy, EMPTY, a) == (one, Accepted) && Step(policy, one, b) == (two, Accepted)
    requires Step(policy, two, c).1 == Accepted
    ensures AcceptedIn(policy, EMPTY, [] + [a] + [b] + [c]) == [a.contribution, b.contribution, c.contribution]
  {
    RunSnoc(policy, EMPTY, [], a);
    RunSnoc(policy, EMPTY, [] + [a], b);
    RunSnoc(policy, EMPTY, [] + [a] + [b], c);
  }

  /** The ledger with room for one contribution after it has taken `c`. */
  function Pushed(ledger: Ledger, c: Contribution): Ledger {
    ledger.(replay := map[PositionOf(c) := c], latest := ledger.latest[StreamOf(c) := MarkOf(c)],
            contexts := ledger.contexts[c.jobId := ContextOf(c)])
  }

  lemma PushOut(policy: Policy, ledger: Ledger, c: Contribution, members: seq<NodeId>)
    requires policy.maxReplay == 1 && |ledger.replay| <= 1 && PositionOf(c) !in ledger.replay
    requires c.worker in members && !OutOfBounds(policy, c) && ledger.quarantined == map[] && ledger.rejected == map[]
    requires StreamOf(c) in ledger.latest ==> ledger.latest[StreamOf(c)] == MarkOf(c)
    requires c.jobId in ledger.contexts ==> ledger.contexts[c.jobId] == ContextOf(c)
    ensures Admit(policy, ledger, c, members, 0) == (Pushed(ledger, c), Accepted)
  {
    assert Bound(ledger.replay, 1) == map[];
    NewcomerAccepted(policy, ledger, c, members, 0);
  }
}

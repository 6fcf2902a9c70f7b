/**
 A whole campaign (`maybe_elect`): the mailbox is read until a quorum, a higher
 candidacy or the last timeout.
 */
module TrainingCampaign {
  import opened Machine
  import opened TrainingModel
  import opened TrainingSteps
  import opened TrainingEffects

  type Letter = (NodeId, Message)

  /** The campaign loop, up to the end of the mailbox. */
  function CampaignLoop(start: Start, me: NodeId, node: Node, mailbox: seq<Letter>, diskOk: bool): Node
    decreases |mailbox|
  {
    if node.campaign.None? then node
    else if mailbox == [] then node.(campaign := None)
    else
      var next := CampaignStep(start, me, node, mailbox[0].0, mailbox[0].1, diskOk);
      CampaignLoop(start, me, next, mailbox[1..], diskOk)
  }

  /** A participant's own grant of this term to this candidate. */
  predicate Approves(start: Start, me: NodeId, term: u64, letter: Letter) {
    letter.1.Ballot? &&
      var vote := letter.1.vote;
      && letter.0 != me && letter.0 in start.participants && vote.peer == letter.0
      && vote.granted && vote.candidate == me && vote.jobId == start.jobId
      && vote.ackTerm == term && vote.term == term
  }

  predicate Outbids(term: u64, letter: Letter) { letter.1.Election? && letter.1.request.term > term }

  ghost function Approving(start: Start, me: NodeId, term: u64, mailbox: seq<Letter>, n: nat): set<NodeId>
    requires n <= |mailbox|
  {
    set i | 0 <= i < n && Approves(start, me, term, mailbox[i]) :: mailbox[i].0
  }

  /** After `n` letters, none of them a higher candidacy, the distinct voters are a quorum of the membership. */
  ghost predicate QuorumAfter(start: Start, me: NodeId, c: Campaign, mailbox: seq<Letter>, n: nat) {
    && n <= |mailbox|
    && Unopposed(c.term, mailbox, n)
    && Majority(start, c.votes + Approving(start, me, c.term, mailbox, n))
  }

  ghost predicate Unopposed(term: u64, mailbox: seq<Letter>, n: nat)
    requires n <= |mailbox|
  {
    forall i :: 0 <= i < n ==> !Outbids(term, mailbox[i])
  }

  predicate Majority(start: Start, votes: set<NodeId>) { 2 * |votes| > |start.participants| }

  ghost predicate ReachesQuorum(start: Start, me: NodeId, c: Campaign, mailbox: seq<Letter>) {
    exists n :: QuorumAfter(start, me, c, mailbox, n)
  }

  lemma ApprovingCons(start: Start, me: NodeId, term: u64, mailbox: seq<Letter>, n: nat)
    requires 0 < n <= |mailbox|
    ensures Approving(start, me, term, mailbox, n)
            == (if Approves(start, me, term, mailbox[0]) then {mailbox[0].0} else {})
               + Approving(start, me, term, mailbox[1..], n - 1)
  {
    var rest := mailbox[1..];
    forall p | p in Approving(start, me, term, rest, n - 1) ensures p in Approving(start, me, term, mailbox, n) {
      var i :| 0 <= i < n - 1 && Approves(start, me, term, rest[i]) && rest[i].0 == p;
      assert mailbox[i + 1] == rest[i];
    }
    forall p | p in Approving(start, me, term, mailbox, n)
      ensures (Approves(start, me, term, mailbox[0]) && p == mailbox[0].0)
              || p in Approving(start, me, term, rest, n - 1)
    {
      var i :| 0 <= i < n && Approves(start, me, term, mailbox[i]) && mailbox[i].0 == p;
      if i > 0 {
        assert rest[i - 1] == mailbox[i];
      }
    }
  }

  /** The votes once the first letter is counted. */
  ghost function Counted(start: Start, me: NodeId, c: Campaign, letter: Letter): Campaign {
    if Approves(start, me, c.term, letter) then c.(votes := c.votes + {letter.0}) else c
  }

  lemma VotesShift(start: Start, me: NodeId, c: Campaign, mailbox: seq<Letter>, n: nat)
    requires n < |mailbox|
    ensures c.votes + Approving(start, me, c.term, mailbox, n + 1)
            == Counted(start, me, c, mailbox[0]).votes + Approving(start, me, c.term, mailbox[1..], n)
  {
    ApprovingCons(start, me, c.term, mailbox, n + 1);
  }

  lemma UnopposedShift(term: u64, mailbox: seq<Letter>, n: nat)
    requires n < |mailbox| && !Outbids(term, mailbox[0])
    ensures Unopposed(term, mailbox, n + 1) <==> Unopposed(term, mailbox[1..], n)
  {
    var rest := mailbox[1..];
    assert forall i :: 0 < i < n + 1 ==> mailbox[i] == rest[i - 1];
    assert forall i :: 0 <= i < n ==> rest[i] == mailbox[i + 1];
  }

  lemma QuorumShift(start: Start, me: NodeId, c: Campaign, mailbox: seq<Letter>, n: nat)
    requires n < |mailbox| && !Outbids(c.term, mailbox[0])
    ensures QuorumAfter(start, me, c, mailbox, n + 1)
            <==> QuorumAfter(start, me, Counted(start, me, c, mailbox[0]), mailbox[1..], n)
  {
    VotesShift(start, me, c, mailbox, n);
    UnopposedShift(c.term, mailbox, n);
  }

  lemma NotAtOnce(start: Start, me: NodeId, c: Campaign, mailbox: seq<Letter>)
    requires !Majority(start, c.votes)
    ensures !QuorumAfter(start, me, c, mailbox, 0)
  {
    assert c.votes + Approving(start, me, c.term, mailbox, 0) == c.votes;
  }

  lemma QuorumEarlier(start: Start, me: NodeId, c: Campaign, mailbox: seq<Letter>, n: nat)
    requires mailbox != [] && !Majority(start, c.votes) && !Outbids(c.term, mailbox[0])
    requires QuorumAfter(start, me, c, mailbox, n)
    ensures ReachesQuorum(start, me, Counted(start, me, c, mailbox[0]), mailbox[1..])
  {
    NotAtOnce(start, me, c, mailbox);
    QuorumShift(start, me, c, mailbox, n - 1);
  }

  lemma QuorumLater(start: Start, me: NodeId, c: Campaign, mailbox: seq<Letter>, n: nat)
    requires mailbox != [] && !Outbids(c.term, mailbox[0])
    requires QuorumAfter(start, me, Counted(start, me, c, mailbox[0]), mailbox[1..], n)
    ensures ReachesQuorum(start, me, c, mailbox)
  {
    QuorumShift(start, me, c, mailbox, n);
  }

  /** Reading one letter that does not end the campaign. */
  lemma QuorumCons(start: Start, me: NodeId, c: Campaign, mailbox: seq<Letter>)
    requires mailbox != [] && !Majority(start, c.votes) && !Outbids(c.term, mailbox[0])
    ensures ReachesQuorum(start, me, c, mailbox)
            <==> ReachesQuorum(start, me, Counted(start, me, c, mailbox[0]), mailbox[1..])
  {
    if n: nat :| QuorumAfter(start, me, c, mailbox, n) {
      QuorumEarlier(start, me, c, mailbox, n);
    }
    if n: nat :| QuorumAfter(start, me, Counted(start, me, c, mailbox[0]), mailbox[1..], n) {
      QuorumLater(start, me, c, mailbox, n);
    }
  }

  lemma QuorumNow(start: Start, me: NodeId, c: Campaign, mailbox: seq<Letter>)
    requires Majority(start, c.votes)
    ensures ReachesQuorum(start, me, c, mailbox)
  {
    assert c.votes + Approving(start, me, c.term, mailbox, 0) == c.votes;
    assert QuorumAfter(start, me, c, mailbox, 0);
  }

  lemma NoQuorum(start: Start, me: NodeId, c: Campaign, mailbox: seq<Letter>)
    requires !Majority(start, c.votes)
    requires mailbox == [] || Outbids(c.term, mailbox[0])
    ensures !ReachesQuorum(start, me, c, mailbox)
  {
    assert c.votes + Approving(start, me, c.term, mailbox, 0) == c.votes;
    forall n: nat ensures !QuorumAfter(start, me, c, mailbox, n) {
    }
  }

  /** A letter that is neither a counted ballot nor a higher candidacy leaves the campaign as it was. */
  lemma LetterEffect(start: Start, me: NodeId, node: Node, letter: Letter, diskOk: bool)
    requires node.campaign.Some? && !Majority(start, node.campaign.value.votes)
    ensures var c, next := node.campaign.value, CampaignStep(start, me, node, letter.0, letter.1, diskOk);
            var counted := c.(votes := c.votes + {letter.0});
            if Outbids(c.term, letter) then next.campaign.None? && next.ctx.role == node.ctx.role
            else if Approves(start, me, c.term, letter) then next == Tally(start, me, node, counted, diskOk)
            else next.campaign == node.campaign && next.ctx.role == node.ctx.role
  {
  }

  /**
   A candidate becomes coordinator exactly when grants of its term from a majority
   of the membership, itself included, arrive before a higher candidacy; it then
   coordinates the term it stood for. Whatever else arrives makes no difference.
   */
  lemma {:induction false} MajorityElects(
    start: Start, me: NodeId, node: Node, mailbox: seq<Letter>, diskOk: bool)
    requires node.campaign.Some? && node.ctx.role == Worker
    requires !Majority(start, node.campaign.value.votes)
    ensures var c, end := node.campaign.value, CampaignLoop(start, me, node, mailbox, diskOk);
            && end.campaign.None?
            && (end.ctx.role == Coordinator <==> ReachesQuorum(start, me, c, mailbox))
            && (end.ctx.role == Coordinator ==>
                  && end.ctx.term == c.term && end.ctx.coordinator == me && end.ctx.failed == {c.failedCoordinator}
                  && end.ctx.votedTerm == c.term && end.ctx.votedCandidate == Some(me))
    decreases |mailbox|
  {
    var c := node.campaign.value;
    if mailbox == [] {
      NoQuorum(start, me, c, mailbox);
    } else {
      var letter := mailbox[0];
      var next := CampaignStep(start, me, node, letter.0, letter.1, diskOk);
      LetterEffect(start, me, node, letter, diskOk);
      if Outbids(c.term, letter) {
        NoQuorum(start, me, c, mailbox);
      } else {
        QuorumCons(start, me, c, mailbox);
        if next.campaign.Some? {
          MajorityElects(start, me, next, mailbox[1..], diskOk);
        } else {
          QuorumNow(start, me, c.(votes := c.votes + {letter.0}), mailbox[1..]);
        }
      }
    }
  }

  /**
   `maybe_elect` as a whole: a worker that loses its coordinator takes over exactly
   when it owns the election and reaches a majority for the next term.
   */
  lemma TakesOverIff(
    start: Start, me: NodeId, node: Node, failedCoordinator: NodeId, mailbox: seq<Letter>, diskOk: bool)
    requires node.campaign.None? && node.ctx.role == Worker
    ensures var ctx := node.ctx.(failed := node.ctx.failed + {failedCoordinator});
            var c := Campaign(SatAdd(ctx.term, 1), failedCoordinator, ctx.term, ctx.coordinator, {me});
            var begun := BeginCampaign(start, me, node, failedCoordinator, diskOk);
            var end := CampaignLoop(start, me, begun, mailbox, diskOk);
            && (end.ctx.role == Coordinator <==> OwnsElection(start, me, ctx) && ReachesQuorum(start, me, c, mailbox))
            && (end.ctx.role == Coordinator ==> end.ctx.term == c.term && end.ctx.coordinator == me)
  {
    var ctx := node.ctx.(failed := node.ctx.failed + {failedCoordinator});
    var c := Campaign(SatAdd(ctx.term, 1), failedCoordinator, ctx.term, ctx.coordinator, {me});
    if OwnsElection(start, me, ctx) {
      if Majority(start, c.votes) {
        QuorumNow(start, me, c, mailbox);
      } else {
        MajorityElects(start, me, node.(ctx := ctx, campaign := Some(c)), mailbox, diskOk);
      }
    }
  }

  // ----- what a candidate learns

  /** The context has reached the state in its window, its checkpoints and every shard. */
  ghost predicate Meets(ctx: Context, state: TrainingState) {
    && ctx.window >= state.window && ctx.checkpointGeneration >= state.checkpointGeneration
    && forall i :: 0 <= i < |state.shards| ==> !AheadOf(ctx.summaries, state.shards[i])
  }

  /** A participant's state of the term that just ended. */
  predicate FromEndedTerm(start: Start, me: NodeId, c: Campaign, letter: Letter) {
    letter.1.State? &&
      var state := letter.1.state;
      && letter.0 != me && letter.0 in start.participants && state.jobId == start.jobId
      && state.branch == start.branch && state.term == c.previousTerm && state.coordinator == c.previousCoordinator
  }

  lemma StepStillMeets(start: Start, me: NodeId, node: Node, letter: Letter, diskOk: bool, state: TrainingState)
    requires node.campaign.Some? && Meets(node.ctx, state)
    ensures Meets(CampaignStep(start, me, node, letter.0, letter.1, diskOk).ctx, state)
  {
    if letter.1.State? {
      RecoveryEffect(start, me, node, letter.0, letter.1.state, diskOk);
    }
  }

  lemma {:induction false} LoopStillMeets(
    start: Start, me: NodeId, node: Node, mailbox: seq<Letter>, diskOk: bool, state: TrainingState)
    requires Meets(node.ctx, state)
    ensures Meets(CampaignLoop(start, me, node, mailbox, diskOk).ctx, state)
    decreases |mailbox|
  {
    if node.campaign.Some? && mailbox != [] {
      StepStillMeets(start, me, node, mailbox[0], diskOk, state);
      var next := CampaignStep(start, me, node, mailbox[0].0, mailbox[0].1, diskOk);
      LoopStillMeets(start, me, next, mailbox[1..], diskOk, state);
    }
  }

  lemma StepMeets(start: Start, me: NodeId, node: Node, letter: Letter, diskOk: bool)
    requires node.campaign.Some? && FromEndedTerm(start, me, node.campaign.value, letter)
    ensures Meets(CampaignStep(start, me, node, letter.0, letter.1, diskOk).ctx, letter.1.state)
  {
    RecoveryEffect(start, me, node, letter.0, letter.1.state, diskOk);
  }

  /** The first `i` letters leave the campaign open: no higher candidacy, no quorum. */
  ghost predicate OpenAfter(start: Start, me: NodeId, c: Campaign, mailbox: seq<Letter>, i: nat) {
    && i <= |mailbox|
    && Unopposed(c.term, mailbox, i)
    && !Majority(start, c.votes + Approving(start, me, c.term, mailbox, i))
  }

  lemma OpenShift(start: Start, me: NodeId, c: Campaign, mailbox: seq<Letter>, i: nat)
    requires i < |mailbox| && OpenAfter(start, me, c, mailbox, i + 1)
    ensures var next := Counted(start, me, c, mailbox[0]);
            OpenAfter(start, me, next, mailbox[1..], i) && !Majority(start, next.votes)
  {
    var next := Counted(start, me, c, mailbox[0]);
    VotesShift(start, me, c, mailbox, i);
    UnopposedShift(c.term, mailbox, i);
    SubsetSize(next.votes, next.votes + Approving(start, me, c.term, mailbox[1..], i));
  }

  lemma OpenStep(start: Start, me: NodeId, node: Node, letter: Letter, diskOk: bool)
    requires node.campaign.Some? && !Outbids(node.campaign.value.term, letter)
    requires !Majority(start, Counted(start, me, node.campaign.value, letter).votes)
    ensures CampaignStep(start, me, node, letter.0, letter.1, diskOk).campaign
            == Some(Counted(start, me, node.campaign.value, letter))
  {
  }

  /**
   Whoever wins, a candidate ends its campaign having reached every state of the
   ended term that it read: its window, its checkpoints and each of its shards.
   */
  lemma {:induction false} CampaignLearns(
    start: Start, me: NodeId, node: Node, mailbox: seq<Letter>, diskOk: bool, i: nat)
    requires node.campaign.Some? && OpenAfter(start, me, node.campaign.value, mailbox, i)
    requires i < |mailbox| && FromEndedTerm(start, me, node.campaign.value, mailbox[i])
    ensures Meets(CampaignLoop(start, me, node, mailbox, diskOk).ctx, mailbox[i].1.state)
    decreases |mailbox|
  {
    var letter, rest := mailbox[0], mailbox[1..];
    var next := CampaignStep(start, me, node, letter.0, letter.1, diskOk);
    if i == 0 {
      StepMeets(start, me, node, letter, diskOk);
      LoopStillMeets(start, me, next, rest, diskOk, letter.1.state);
    } else {
      OpenShift(start, me, node.campaign.value, mailbox, i - 1);
      OpenStep(start, me, node, letter, diskOk);
      CampaignLearns(start, me, next, rest, diskOk, i - 1);
    }
  }
}

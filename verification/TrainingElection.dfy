/**
 Elections across the whole membership. Any node may take any step with any
 input; the only thing assumed about the network is that a ballot delivered
 from a peer was really sent by that peer. Delivery may lose, duplicate, delay
 and reorder everything.
 */
module TrainingElection {
  import opened Machine
  import opened TrainingModel
  import opened TrainingSteps

  datatype SentBallot = SentBallot(from: NodeId, to: NodeId, vote: Vote)

  /** `voter` supported `candidate` in `term`, by a granted vote or by standing itself. */
  datatype Backing = Backing(voter: NodeId, candidate: NodeId, term: u64)

  datatype Win = Win(node: NodeId, term: u64)

  datatype Cluster = Cluster(nodes: map<NodeId, Node>, ballots: set<SentBallot>, backed: set<Backing>, wins: set<Win>)

  datatype Event = Event(node: NodeId, input: Input)

  /** The request a step hands to `handle_election`, if it does. */
  function RequestHandled(node: Node, input: Input): Option<ElectionRequest> {
    if !node.live || !input.Deliver? || !input.message.Election? then None
    else
      var request := input.message.request;
      if node.campaign.Some? && request.term <= node.campaign.value.term then None
      else if node.campaign.None? && node.ctx.role == Coordinator && request.term <= node.ctx.term then None
      else Some(request)
  }

  /** The ballots a step sends: at most one answer to the requesting candidate. */
  function BallotsSent(start: Start, me: NodeId, node: Node, input: Input): set<SentBallot> {
    var request := RequestHandled(node, input);
    if request.None? || ElectionRefused(start, input.peer, request.value) then {}
    else
      var r := request.value;
      {SentBallot(me, input.peer, Vote(r.jobId, me, r.term, r.candidate, r.term, Grants(node.ctx, r)))}
  }

  function GrantsIn(ballots: set<SentBallot>): set<Backing> {
    set b | b in ballots && b.vote.granted :: Backing(b.from, b.vote.candidate, b.vote.term)
  }

  predicate OpensCampaign(start: Start, me: NodeId, node: Node, input: Input) {
    && node.live && node.campaign.None? && node.ctx.role == Worker
    && input.PeerLost? && input.peer !in input.restored && input.peer == node.ctx.coordinator
    && OwnsElection(start, me, node.ctx.(failed := node.ctx.failed + {input.peer}))
  }

  function SelfBacking(start: Start, me: NodeId, node: Node, input: Input): set<Backing> {
    if OpensCampaign(start, me, node, input) then {Backing(me, me, SatAdd(node.ctx.term, 1))} else {}
  }

  function NewWins(me: NodeId, node: Node, next: Node): set<Win> {
    if node.ctx.role == Worker && next.ctx.role == Coordinator then {Win(me, next.ctx.term)} else {}
  }

  function ClusterStep(start: Start, c: Cluster, e: Event): Cluster
    requires start.checkpointEvery > 0 && e.node in c.nodes
  {
    var node := c.nodes[e.node];
    var next := Step(start, e.node, node, e.input);
    var sent := BallotsSent(start, e.node, node, e.input);
    Cluster(c.nodes[e.node := next], c.ballots + sent,
            c.backed + GrantsIn(sent) + SelfBacking(start, e.node, node, e.input),
            c.wins + NewWins(e.node, node, next))
  }

  /** No node receives from itself, and delivered ballots were sent. */
  predicate Authentic(c: Cluster, e: Event) {
    && e.node in c.nodes
    && (e.input.Deliver? ==>
          && e.input.peer != e.node
          && (e.input.message.Ballot? ==> SentBallot(e.input.peer, e.node, e.input.message.vote) in c.ballots))
  }

  ghost predicate Move(start: Start, before: Cluster, e: Event, after: Cluster)
    requires start.checkpointEvery > 0
  {
    Authentic(before, e) && after == ClusterStep(start, before, e)
  }

  /** `states` is a run of the cluster in which `events[i]` leads from `states[i]` to `states[i + 1]`. */
  ghost predicate IsRun(start: Start, states: seq<Cluster>, events: seq<Event>)
    requires start.checkpointEvery > 0
  {
    && |states| == |events| + 1
    && Initial(start, states[0])
    && forall i :: 0 <= i < |events| ==> Move(start, states[i], events[i], states[i + 1])
  }

  /** Participants accepted the job as workers; the node that started it coordinates the first term. */
  ghost predicate Initial(start: Start, c: Cluster) {
    && c.ballots == {} && c.backed == {} && c.wins == {}
    && forall n :: n in c.nodes ==>
         c.nodes[n] == FreshNode(start, if n == start.coordinator then Coordinator else Worker)
  }

  // ----- the invariant

  function Members(nodes: seq<NodeId>): set<NodeId> { set p | p in nodes }

  function Backers(start: Start, backed: set<Backing>, candidate: NodeId, term: u64): set<NodeId> {
    set v | v in start.participants && Backing(v, candidate, term) in backed
  }

  ghost predicate CampaignBacked(start: Start, n: NodeId, node: Node, backed: set<Backing>) {
    node.campaign.Some? ==>
      && node.ctx.role == Worker
      && node.campaign.value.term == SatAdd(node.ctx.term, 1)
      && node.campaign.value.votes <= Backers(start, backed, n, node.campaign.value.term)
  }

  ghost predicate RoleEarned(start: Start, n: NodeId, node: Node, wins: set<Win>) {
    && node.ctx.term >= start.term
    && (node.disk.Some? ==> node.disk.value.term >= start.term)
    && (node.live && node.ctx.role == Coordinator ==>
          && node.ctx.coordinator == n
          && (Win(n, node.ctx.term) in wins || (n == start.coordinator && node.ctx.term == start.term)))
  }

  ghost predicate BallotsHonest(c: Cluster) {
    forall b :: b in c.ballots ==>
      b.vote.peer == b.from && (b.vote.granted ==> Backing(b.from, b.vote.candidate, b.vote.term) in c.backed)
  }

  ghost predicate WinsBacked(start: Start, c: Cluster) {
    forall w :: w in c.wins ==>
      w.term > start.term && |Backers(start, c.backed, w.node, w.term)| >= Quorum(|start.participants|)
  }

  ghost predicate Inv(start: Start, c: Cluster) {
    && BallotsHonest(c)
    && WinsBacked(start, c)
    && (forall n :: n in c.nodes ==> CampaignBacked(start, n, c.nodes[n], c.backed))
    && (forall n :: n in c.nodes ==> RoleEarned(start, n, c.nodes[n], c.wins))
  }

  lemma BackersGrow(start: Start, small: set<Backing>, large: set<Backing>, candidate: NodeId, term: u64)
    requires small <= large
    ensures Backers(start, small, candidate, term) <= Backers(start, large, candidate, term)
    ensures |Backers(start, small, candidate, term)| <= |Backers(start, large, candidate, term)|
  {
    SubsetSize(Backers(start, small, candidate, term), Backers(start, large, candidate, term));
  }

  // ----- one step of one node

  /** What the step of one node establishes about that node. */
  ghost predicate NodeGood(start: Start, n: NodeId, node: Node, next: Node, backed: set<Backing>, wins: set<Win>) {
    && CampaignBacked(start, n, next, backed)
    && RoleEarned(start, n, next, wins + NewWins(n, node, next))
    && forall w :: w in NewWins(n, node, next) ==>
         w.term > start.term && |Backers(start, backed, w.node, w.term)| >= Quorum(|start.participants|)
  }

  lemma TallyGood(
    start: Start, n: NodeId, node: Node, campaign: Campaign, ok: bool, backed: set<Backing>, wins: set<Win>)
    requires start.term < U64_MAX
    requires node.ctx.role == Worker && RoleEarned(start, n, node, wins)
    requires campaign.term == SatAdd(node.ctx.term, 1)
    requires campaign.votes <= Backers(start, backed, n, campaign.term)
    ensures NodeGood(start, n, node, Tally(start, n, node, campaign, ok), backed, wins)
  {
    SubsetSize(campaign.votes, Backers(start, backed, n, campaign.term));
  }

  lemma CampaignGood(
    start: Start, n: NodeId, node: Node, peer: NodeId, message: Message, ok: bool, backed: set<Backing>, wins: set<Win>)
    requires start.term < U64_MAX && node.campaign.Some?
    requires CampaignBacked(start, n, node, backed) && RoleEarned(start, n, node, wins)
    requires message.Ballot? && message.vote.granted && message.vote.peer == peer ==>
               Backing(peer, message.vote.candidate, message.vote.term) in backed
    ensures NodeGood(start, n, node, CampaignStep(start, n, node, peer, message, ok), backed, wins)
  {
    var c := node.campaign.value;
    if message.Ballot? && CountsVote(start, n, c, peer, message.vote) {
      TallyGood(start, n, node, c.(votes := c.votes + {peer}), ok, backed, wins);
    }
  }

  lemma AcceptKeepsTerm(start: Start, node: Node, peer: NodeId, a: Aggregate, env: Env)
    requires start.checkpointEvery > 0
    ensures var next := AcceptAggregate(start, node, peer, a, env).0;
            && next.ctx.term == node.ctx.term && next.ctx.role == node.ctx.role
            && next.ctx.coordinator == node.ctx.coordinator && next.campaign == node.campaign
            && (next.disk == node.disk || (next.disk.Some? && next.disk.value.term == node.ctx.term))
  {
    CommitKeepsTerm(start, node, env);
    CommitKeepsTerm(start, Persist(start, node.(ctx := RecordAggregate(node.ctx, a)), env.diskOk), env);
  }

  lemma CommitKeepsTerm(start: Start, node: Node, env: Env)
    requires start.checkpointEvery > 0
    ensures var next := CommitCheckpoint(start, node, env).0;
            && next.ctx.term == node.ctx.term && next.ctx.role == node.ctx.role
            && next.ctx.coordinator == node.ctx.coordinator && next.campaign == node.campaign
            && (next.disk == node.disk || (next.disk.Some? && next.disk.value.term == node.ctx.term))
  {
  }

  lemma CoordinatorGood(
    start: Start, n: NodeId, node: Node, peer: NodeId, message: Message, env: Env, backed: set<Backing>, wins: set<Win>)
    requires start.checkpointEvery > 0 && node.live && node.campaign.None? && node.ctx.role == Coordinator && peer != n
    requires RoleEarned(start, n, node, wins)
    ensures NodeGood(start, n, node, CoordinatorStep(start, node, peer, message, env), backed, wins)
  {
    match message {
      case Result(a) => AcceptKeepsTerm(start, node, peer, a, env);
      case _ =>
    }
  }

  lemma WorkerGood(
    start: Start, n: NodeId, node: Node, peer: NodeId, message: Message, env: Env, backed: set<Backing>, wins: set<Win>)
    requires start.checkpointEvery > 0 && node.live && node.campaign.None? && node.ctx.role == Worker
    requires RoleEarned(start, n, node, wins)
    ensures NodeGood(start, n, node, WorkerStep(start, n, node, peer, message, env), backed, wins)
  {
  }

  lemma LosePeerGood(
    start: Start, n: NodeId, node: Node, peer: NodeId, restored: set<NodeId>, env: Env,
    backed: set<Backing>, wins: set<Win>)
    requires start.term < U64_MAX && start.checkpointEvery > 0 && node.live && node.campaign.None?
    requires RoleEarned(start, n, node, wins)
    requires SelfBacking(start, n, node, PeerLost(peer, restored, env)) <= backed
    ensures NodeGood(start, n, node, LosePeer(start, n, node, peer, restored, env), backed, wins)
  {
    var failing := node.ctx.(failed := node.ctx.failed + {peer});
    ReplaceKeeps(failing, peer, restored, 0);
    if OpensCampaign(start, n, node, PeerLost(peer, restored, env)) {
      var campaign := Campaign(SatAdd(failing.term, 1), peer, failing.term, failing.coordinator, {n});
      assert Backing(n, n, campaign.term) in backed;
      TallyGood(start, n, node.(ctx := failing, campaign := Some(campaign)), campaign, env.diskOk, backed, wins);
    }
  }

  lemma DeliverGood(start: Start, n: NodeId, node: Node, peer: NodeId, message: Message, env: Env,
                    backed: set<Backing>, wins: set<Win>)
    requires start.checkpointEvery > 0 && start.term < U64_MAX && node.live && peer != n
    requires CampaignBacked(start, n, node, backed) && RoleEarned(start, n, node, wins)
    requires message.Ballot? && message.vote.granted && message.vote.peer == peer ==>
               Backing(peer, message.vote.candidate, message.vote.term) in backed
    ensures NodeGood(start, n, node, Step(start, n, node, Deliver(peer, message, env)), backed, wins)
  {
    if node.campaign.Some? {
      CampaignGood(start, n, node, peer, message, env.diskOk, backed, wins);
    } else if node.ctx.role == Coordinator {
      CoordinatorGood(start, n, node, peer, message, env, backed, wins);
    } else {
      WorkerGood(start, n, node, peer, message, env, backed, wins);
    }
  }

  lemma QuietGood(start: Start, n: NodeId, node: Node, input: Input, backed: set<Backing>, wins: set<Win>)
    requires start.checkpointEvery > 0
    requires CampaignBacked(start, n, node, backed) && RoleEarned(start, n, node, wins)
    requires !node.live || input.GroupAdvanced? || input.WindowClosed? || input.CampaignExpired? || input.Restart?
             || (input.PeerLost? && node.campaign.Some?)
    ensures NodeGood(start, n, node, Step(start, n, node, input), backed, wins)
  {
  }

  lemma NodeStepGood(start: Start, c: Cluster, e: Event)
    requires start.checkpointEvery > 0 && start.term < U64_MAX
    requires Inv(start, c) && Authentic(c, e)
    ensures var after := ClusterStep(start, c, e);
            NodeGood(start, e.node, c.nodes[e.node], after.nodes[e.node], after.backed, c.wins)
  {
    var node := c.nodes[e.node];
    var backed := ClusterStep(start, c, e).backed;
    assert CampaignBacked(start, e.node, node, backed) by {
      if node.campaign.Some? {
        BackersGrow(start, c.backed, backed, e.node, node.campaign.value.term);
      }
    }
    if node.live && e.input.Deliver? {
      DeliverGood(start, e.node, node, e.input.peer, e.input.message, e.input.env, backed, c.wins);
    } else if node.live && e.input.PeerLost? && node.campaign.None? {
      LosePeerGood(start, e.node, node, e.input.peer, e.input.restored, e.input.env, backed, c.wins);
    } else {
      QuietGood(start, e.node, node, e.input, backed, c.wins);
    }
  }

  lemma InvStep(start: Start, c: Cluster, e: Event)
    requires start.checkpointEvery > 0 && start.term < U64_MAX
    requires Inv(start, c) && Authentic(c, e)
    ensures Inv(start, ClusterStep(start, c, e))
  {
    var after := ClusterStep(start, c, e);
    NodeStepGood(start, c, e);
    forall w | w in after.wins
      ensures w.term > start.term && |Backers(start, after.backed, w.node, w.term)| >= Quorum(|start.participants|)
    {
      BackersGrow(start, c.backed, after.backed, w.node, w.term);
    }
    forall n | n in after.nodes
      ensures CampaignBacked(start, n, after.nodes[n], after.backed) && RoleEarned(start, n, after.nodes[n], after.wins)
    {
      if n != e.node && c.nodes[n].campaign.Some? {
        BackersGrow(start, c.backed, after.backed, n, c.nodes[n].campaign.value.term);
      }
    }
  }

  lemma InitialInv(start: Start, c: Cluster)
    requires Initial(start, c)
    ensures Inv(start, c)
  {
  }

  lemma {:induction false} RunInv(start: Start, states: seq<Cluster>, events: seq<Event>, i: nat)
    requires start.checkpointEvery > 0 && start.term < U64_MAX
    requires IsRun(start, states, events) && i < |states|
    ensures Inv(start, states[i])
  {
    if i == 0 {
      InitialInv(start, states[0]);
    } else {
      RunInv(start, states, events, i - 1);
      assert Move(start, states[i - 1], events[i - 1], states[i]);
      InvStep(start, states[i - 1], events[i - 1]);
    }
  }

  // ----- quorums meet

  lemma {:induction false} MembersCount(nodes: seq<NodeId>)
    requires forall i, j :: 0 <= i < j < |nodes| ==> nodes[i] != nodes[j]
    ensures |Members(nodes)| == |nodes|
  {
    if nodes == [] {
      assert Members(nodes) == {};
    } else {
      var last := nodes[|nodes| - 1];
      var rest := nodes[..|nodes| - 1];
      MembersCount(rest);
      assert nodes == rest + [last];
      assert Members(nodes) == Members(rest) + {last};
    }
  }

  lemma QuorumsMeet(start: Start, a: set<NodeId>, b: set<NodeId>)
    requires ValidStart(start)
    requires a <= Members(start.participants) && b <= Members(start.participants)
    requires |a| >= Quorum(|start.participants|) && |b| >= Quorum(|start.participants|)
    ensures a * b != {}
  {
    MembersCount(start.participants);
    SubsetSize(a + b, Members(start.participants));
    assert |a + b| == |a| + |b| - |a * b|;
  }

  /** Two winners of one term were both backed by some participant. */
  lemma WinnersShareABacker(
    start: Start, states: seq<Cluster>, events: seq<Event>, c: Cluster, a: NodeId, b: NodeId, term: u64)
    requires ValidStart(start) && start.term < U64_MAX
    requires IsRun(start, states, events) && c in states
    requires Win(a, term) in c.wins && Win(b, term) in c.wins
    ensures exists v :: v in start.participants && Backing(v, a, term) in c.backed && Backing(v, b, term) in c.backed
  {
    var i :| 0 <= i < |states| && states[i] == c;
    RunInv(start, states, events, i);
    var backersA, backersB := Backers(start, c.backed, a, term), Backers(start, c.backed, b, term);
    QuorumsMeet(start, backersA, backersB);
    var v :| v in backersA * backersB;
    assert v in backersA && v in backersB;
  }

  /** No participant backs two candidates of this term. */
  ghost predicate OneBackingEach(start: Start, backed: set<Backing>, term: u64) {
    forall v, a, b ::
      v in start.participants && Backing(v, a, term) in backed && Backing(v, b, term) in backed ==> a == b
  }

  /** If no participant backs two candidates of the term, its live coordinators are the same node. */
  lemma UniqueCoordinator(
    start: Start, states: seq<Cluster>, events: seq<Event>, c: Cluster, a: NodeId, b: NodeId)
    requires ValidStart(start) && start.term < U64_MAX
    requires IsRun(start, states, events) && c in states
    requires a in c.nodes && c.nodes[a].live && c.nodes[a].ctx.role == Coordinator
    requires b in c.nodes && c.nodes[b].live && c.nodes[b].ctx.role == Coordinator
    requires c.nodes[a].ctx.term == c.nodes[b].ctx.term && OneBackingEach(start, c.backed, c.nodes[a].ctx.term)
    ensures a == b
  {
    var i :| 0 <= i < |states| && states[i] == c;
    RunInv(start, states, events, i);
    var term := c.nodes[a].ctx.term;
    assert RoleEarned(start, a, c.nodes[a], c.wins) && RoleEarned(start, b, c.nodes[b], c.wins);
    if Win(a, term) in c.wins && Win(b, term) in c.wins {
      WinnersShareABacker(start, states, events, c, a, b, term);
    }
  }
}

/**
 Every step a node can take in a V3 training job: the worker message handlers,
 the election it runs when its coordinator disappears, the coordinator's
 acceptance of group results, and a process restart.
 */
module TrainingSteps {
  import opened Machine
  import opened TrainingModel

  datatype Message =
    | Window(command: WindowCommand)
    | State(state: TrainingState)
    | Election(request: ElectionRequest)
    | Commit(commit: CheckpointCommit)
    | Ballot(vote: Vote)
    | Result(aggregate: Aggregate)

  /** What the outside decided during one step; `hash` is a fresh digest. */
  datatype Env = Env(diskOk: bool, checkpointOk: bool, quorumOk: bool, hash: ArtifactId)

  /** The results of one window of the windowed mode and how its writes and acknowledgements went. */
  datatype Round = Round(results: seq<ShardEntry>, stateAcked: bool, env: Env, commitWritten: bool)

  /** An election this node is running (`maybe_elect` between two mailbox reads). */
  datatype Campaign = Campaign(
    term: u64, failedCoordinator: NodeId, previousTerm: u64, previousCoordinator: NodeId, votes: set<NodeId>)

  /** `live` is false once the job's task has ended; only a restart revives it. */
  datatype Node = Node(ctx: Context, campaign: Option<Campaign>, disk: Option<TrainingState>, live: bool)

  datatype Input =
    | Deliver(peer: NodeId, message: Message, env: Env)
    | GroupAdvanced(window: u64, shardId: ShardId, summary: Summary)
    | WindowClosed(round: Round)
    | PeerLost(peer: NodeId, restored: set<NodeId>, env: Env)
    | CampaignExpired
    | Restart(manifestOnDisk: bool)

  function FreshNode(start: Start, role: Role): Node {
    Node(FreshContext(start, role), None, None, true)
  }

  /** `persist_state`: on failure the record on disk is the previous one. */
  function Persist(start: Start, node: Node, ok: bool): Node {
    if ok then node.(disk := Some(Publish(start, node.ctx))) else node
  }

  // ----- handle_state

  predicate StateRefused(start: Start, ctx: Context, peer: NodeId, state: TrainingState) {
    || peer != state.coordinator
    || state.jobId != start.jobId
    || state.branch != start.branch
    || state.term < ctx.term
    || (state.term == ctx.term && state.window < ctx.window)
    || (state.term == ctx.term && state.checkpointGeneration == ctx.checkpointGeneration
        && state.checkpoint.Some? && ctx.checkpoint.Some? && state.checkpoint != ctx.checkpoint)
  }

  function MergeState(ctx: Context, state: TrainingState): Context {
    var merged := ctx.(coordinator := state.coordinator, term := state.term, window := state.window,
                       summaries := Advance(ctx.summaries, state.shards));
    if state.checkpointGeneration > ctx.checkpointGeneration then
      merged.(checkpointGeneration := state.checkpointGeneration, checkpoint := state.checkpoint)
    else if ctx.checkpoint.None? && state.checkpointGeneration == ctx.checkpointGeneration then
      merged.(checkpoint := state.checkpoint)
    else merged
  }

  function HandleState(start: Start, node: Node, peer: NodeId, state: TrainingState, diskOk: bool): Node {
    if StateRefused(start, node.ctx, peer, state) then node
    else Persist(start, node.(ctx := MergeState(node.ctx, state)), diskOk)
  }

  // ----- handle_election

  predicate ElectionRefused(start: Start, peer: NodeId, request: ElectionRequest) {
    || peer != request.candidate
    || request.jobId != start.jobId
    || request.epoch != start.epoch
    || request.branch != start.branch
    || request.candidate !in start.participants
  }

  /** The vote this node answers with, when it answers at all. */
  predicate Grants(ctx: Context, request: ElectionRequest) {
    request.term > ctx.term
    || (request.term == ctx.votedTerm && ctx.votedCandidate == Some(request.candidate))
  }

  function HandleElection(start: Start, ctx: Context, peer: NodeId, request: ElectionRequest): Context {
    if ElectionRefused(start, peer, request) || request.term <= ctx.term then ctx
    else ctx.(votedTerm := request.term, votedCandidate := Some(request.candidate))
  }

  // ----- handle_checkpoint_commit

  predicate CommitRefused(start: Start, ctx: Context, peer: NodeId, commit: CheckpointCommit) {
    || peer != commit.coordinator
    || commit.jobId != start.jobId
    || commit.branch != start.branch
    || commit.term < ctx.term
    || commit.manifest.checkpointGeneration < ctx.checkpointGeneration
    || !commit.hashMatches
  }

  predicate CoversFinal(start: Start, checkpointGeneration: u64, shards: seq<ShardEntry>)
    requires start.checkpointEvery > 0
  {
    && checkpointGeneration >= FinalCheckpointGeneration(start)
    && forall i :: 0 <= i < |shards| ==> shards[i].summary.generation >= start.maxWindows
  }

  function ApplyCommit(start: Start, ctx: Context, commit: CheckpointCommit): Context
    requires start.checkpointEvery > 0
  {
    var m := commit.manifest;
    ctx.(term := commit.term, coordinator := commit.coordinator,
         window := Max(ctx.window, m.modelGeneration),
         checkpointGeneration := m.checkpointGeneration, checkpoint := Some(m.hash),
         summaries := Overlay(ctx.summaries, m.shards),
         finalCommitted := CoversFinal(start, m.checkpointGeneration, m.shards))
  }

  function HandleCommit(start: Start, node: Node, peer: NodeId, commit: CheckpointCommit, env: Env): Node
    requires start.checkpointEvery > 0
  {
    if CommitRefused(start, node.ctx, peer, commit) || !env.checkpointOk then node
    else Persist(start, node.(ctx := ApplyCommit(start, node.ctx, commit)), env.diskOk)
  }

  // ----- the Window arm of handle_worker_message

  predicate WindowRefused(start: Start, me: NodeId, ctx: Context, peer: NodeId, w: WindowCommand) {
    || ctx.role != Worker
    || (peer != w.coordinator && !(peer == w.aggregator && peer in w.members))
    || (w.coordinator != start.coordinator && w.coordinator !in start.participants)
    || (exists m :: m in w.members && m !in start.participants)
    || w.term < ctx.term
    || w.epoch != start.epoch
    || w.branch != start.branch
    || me !in w.members
    || start.assignedShard != w.shardId
  }

  /** A newer term is adopted and persisted before the window counters move. */
  function HandleWindow(start: Start, me: NodeId, node: Node, peer: NodeId, w: WindowCommand, diskOk: bool): Node {
    if WindowRefused(start, me, node.ctx, peer, w) then
      node.(ctx := node.ctx.(rejectedUpdates := SatAdd(node.ctx.rejectedUpdates, 1)))
    else
      var adopted := if w.term > node.ctx.term
        then Persist(start, node.(ctx := node.ctx.(term := w.term, coordinator := w.coordinator, failed := {})), diskOk)
        else node;
      if w.term > node.ctx.term && !diskOk then adopted
      else
        adopted.(ctx := adopted.ctx.(window := Max(adopted.ctx.window, w.window),
                                     groupProgress := adopted.ctx.groupProgress[w.groupId := w.window]))
  }

  // ----- maybe_elect

  /** The peer that owns the next election: the lowest live non-aggregator, else the lowest live participant. */
  function Eligible(start: Start, ctx: Context, skipAggregators: bool): set<NodeId> {
    set p | p in start.participants && p !in ctx.failed
            && !(skipAggregators && exists g :: g in ctx.groups && g.aggregator == p)
  }

  predicate OwnsElection(start: Start, me: NodeId, ctx: Context) {
    var preferred := Eligible(start, ctx, true);
    var pool := if preferred == {} then Eligible(start, ctx, false) else preferred;
    IsLeast(pool, me)
  }

  function BeginCampaign(start: Start, me: NodeId, node: Node, failedCoordinator: NodeId, diskOk: bool): Node {
    var ctx := node.ctx.(failed := node.ctx.failed + {failedCoordinator});
    if !OwnsElection(start, me, ctx) then node.(ctx := ctx)
    else
      var campaign := Campaign(SatAdd(ctx.term, 1), failedCoordinator, ctx.term, ctx.coordinator, {me});
      Tally(start, me, node.(ctx := ctx, campaign := Some(campaign)), campaign, diskOk)
  }

  /** Become coordinator as soon as the votes reach a quorum of the full membership. */
  function Tally(start: Start, me: NodeId, node: Node, campaign: Campaign, diskOk: bool): Node {
    if |campaign.votes| < Quorum(|start.participants|) then node.(campaign := Some(campaign))
    else Persist(start, node.(ctx := Elected(me, node.ctx, campaign), campaign := None), diskOk)
  }

  function Elected(me: NodeId, ctx: Context, campaign: Campaign): Context {
    ctx.(role := Coordinator, term := campaign.term, coordinator := me,
         votedTerm := campaign.term, votedCandidate := Some(me), failed := {campaign.failedCoordinator})
  }

  predicate CountsVote(start: Start, me: NodeId, campaign: Campaign, peer: NodeId, v: Vote) {
    && peer != me
    && peer == v.peer
    && peer in start.participants
    && v.jobId == start.jobId
    && v.ackTerm == campaign.term
    && v.term == campaign.term
    && v.candidate == me
    && v.granted
  }

  predicate IsNews(ctx: Context, state: TrainingState) {
    || state.window > ctx.window
    || state.checkpointGeneration > ctx.checkpointGeneration
    || exists e :: e in state.shards &&
         (e.shardId !in ctx.summaries || e.summary.generation > ctx.summaries[e.shardId].generation)
  }

  predicate IsRecovery(start: Start, me: NodeId, ctx: Context, campaign: Campaign, peer: NodeId, state: TrainingState) {
    && peer != me
    && peer in start.participants
    && state.jobId == start.jobId
    && state.branch == start.branch
    && state.term == campaign.previousTerm
    && state.coordinator == campaign.previousCoordinator
    && IsNews(ctx, state)
  }

  function Recover(ctx: Context, state: TrainingState): Context {
    ctx.(window := Max(ctx.window, state.window),
         checkpointGeneration := Max(ctx.checkpointGeneration, state.checkpointGeneration),
         checkpoint := state.checkpoint,
         summaries := Advance(ctx.summaries, state.shards))
  }

  /** One mailbox event while a campaign is open; every other message is dropped. */
  function CampaignStep(start: Start, me: NodeId, node: Node, peer: NodeId, message: Message, diskOk: bool): Node
    requires node.campaign.Some?
  {
    var c := node.campaign.value;
    match message
    case Ballot(v) =>
      if CountsVote(start, me, c, peer, v)
      then Tally(start, me, node, c.(votes := c.votes + {peer}), diskOk) else node
    case Election(other) =>
      if other.term > c.term
      then node.(ctx := HandleElection(start, node.ctx, peer, other), campaign := None) else node
    case State(state) =>
      if IsRecovery(start, me, node.ctx, c, peer, state)
      then node.(ctx := Recover(node.ctx, state)) else node
    case _ => node
  }

  // ----- the coordinator of an autonomous job

  predicate AggregateRefused(start: Start, ctx: Context, group: Group, peer: NodeId, a: Aggregate) {
    || peer != a.aggregator
    || peer !in group.members
    || a.jobId != start.jobId
    || a.term != ctx.term
    || a.branch != start.branch
    || a.shardId != group.shardId
    || a.window == 0
    || a.window > start.maxWindows
    || (a.shardId in ctx.summaries && a.generation <= ctx.summaries[a.shardId].generation)
  }

  function FindGroup(groups: seq<Group>, id: GroupId): (r: Option<Group>)
    ensures r.Some? ==> r.value in groups && r.value.groupId == id
    ensures r.None? ==> forall g :: g in groups ==> g.groupId != id
  {
    if groups == [] then None
    else if groups[0].groupId == id then Some(groups[0])
    else FindGroup(groups[1..], id)
  }

  function RecordAggregate(ctx: Context, a: Aggregate): Context {
    ctx.(window := Max(ctx.window, a.window),
         groupProgress := ctx.groupProgress[a.groupId := a.window],
         summaries := ctx.summaries[a.shardId := a.summary.(generation := a.generation)])
  }

  predicate AllShardsStarted(ctx: Context) {
    forall s :: s in ctx.summaries ==> ctx.summaries[s].generation > 0
  }

  function MaxGeneration(entries: seq<ShardEntry>): u64 {
    if entries == [] then 0
    else Max(MaxGeneration(entries[..|entries| - 1]), entries[|entries| - 1].summary.generation)
  }

  /** `make_checkpoint_from_context`. */
  function MakeManifest(ctx: Context, hash: ArtifactId): Manifest {
    var shards := Listing(ctx.summaries);
    Manifest(MaxGeneration(shards), SatAdd(ctx.checkpointGeneration, 1), ctx.checkpoint, shards, hash)
  }

  /** `commit_context_checkpoint`; the second result is false when it reports an error. */
  function CommitCheckpoint(start: Start, node: Node, env: Env): (r: (Node, bool))
    requires start.checkpointEvery > 0
  {
    var m := MakeManifest(node.ctx, env.hash);
    if m.shards == [] || !env.checkpointOk then (node, false)
    else
      var ctx := node.ctx.(checkpointGeneration := m.checkpointGeneration, checkpoint := Some(m.hash));
      var final := CoversFinal(start, m.checkpointGeneration, m.shards);
      if final && !env.quorumOk then (node.(ctx := ctx), false)
      else
        var done := node.(ctx := if final then ctx.(finalCommitted := true) else ctx);
        (Persist(start, done, env.diskOk), env.diskOk)
  }

  /** One aggregate message in `drive_autonomous_coordinator`; false means the loop stops with an error. */
  function AcceptAggregate(start: Start, node: Node, peer: NodeId, a: Aggregate, env: Env): (r: (Node, bool))
    requires start.checkpointEvery > 0
  {
    var group := FindGroup(node.ctx.groups, a.groupId);
    if group.None? then (node, true)
    else if AggregateRefused(start, node.ctx, group.value, peer, a) then
      (node.(ctx := node.ctx.(rejectedUpdates := SatAdd(node.ctx.rejectedUpdates, 1))), true)
    else
      var recorded := Persist(start, node.(ctx := RecordAggregate(node.ctx, a)), env.diskOk);
      if !env.diskOk then (recorded, false)
      else if AllShardsStarted(recorded.ctx) && a.window % start.checkpointEvery == 0
      then CommitCheckpoint(start, recorded, env)
      else (recorded, true)
  }

  /** Members of a group whose aggregator is lost, after retrying the other failed members. */
  function RetryFailed(ctx: Context, group: Group, lost: NodeId, restored: set<NodeId>): set<NodeId> {
    ctx.failed - (set m | m in group.members && m != lost && m in restored)
  }

  function FirstLive(members: seq<NodeId>, failed: set<NodeId>): Option<NodeId> {
    if members == [] then None
    else if members[0] !in failed then Some(members[0])
    else FirstLive(members[1..], failed)
  }

  function LiveMembers(members: seq<NodeId>, failed: set<NodeId>): seq<NodeId> {
    if members == [] then []
    else (if members[0] in failed then [] else [members[0]]) + LiveMembers(members[1..], failed)
  }

  /** Give every group led by `lost` its first live member; false when a group has none. */
  function ReplaceAggregators(ctx: Context, lost: NodeId, restored: set<NodeId>, i: nat): (Context, bool)
    decreases |ctx.groups| - i
  {
    if i >= |ctx.groups| then (ctx, true)
    else
      var group := ctx.groups[i];
      if group.aggregator != lost then ReplaceAggregators(ctx, lost, restored, i + 1)
      else
        var failed := RetryFailed(ctx, group, lost, restored);
        var replacement := FirstLive(group.members, failed);
        if replacement.None? then (ctx.(failed := failed), false)
        else
          var retry := group.(aggregator := replacement.value, members := LiveMembers(group.members, failed));
          ReplaceAggregators(ctx.(failed := failed, groups := ctx.groups[i := retry]), lost, restored, i + 1)
  }

  ghost predicate SameGroups(a: seq<Group>, b: seq<Group>) {
    && |a| == |b|
    && forall i :: 0 <= i < |a| ==> a[i].groupId == b[i].groupId && a[i].shardId == b[i].shardId
  }

  /** Replacing aggregators changes the failure set and who leads and staffs the groups, nothing else. */
  lemma ReplaceKeeps(ctx: Context, lost: NodeId, restored: set<NodeId>, i: nat)
    ensures var r := ReplaceAggregators(ctx, lost, restored, i).0;
            r == ctx.(failed := r.failed, groups := r.groups) && SameGroups(ctx.groups, r.groups)
    decreases |ctx.groups| - i
  {
  }

  function CoordinatorStep(start: Start, node: Node, peer: NodeId, message: Message, env: Env): Node
    requires start.checkpointEvery > 0
  {
    match message
    case Result(a) =>
      var (next, ok) := AcceptAggregate(start, node, peer, a, env);
      next.(live := ok)
    case Election(request) =>
      if request.term > node.ctx.term
      then node.(ctx := HandleElection(start, node.ctx, peer, request)) else node
    case State(state) =>
      if state.term > node.ctx.term then
        var next := HandleState(start, node, peer, state, env.diskOk);
        if !StateRefused(start, node.ctx, peer, state) && !env.diskOk then next.(live := false)
        else if next.ctx.coordinator != node.ctx.coordinator then next.(ctx := next.ctx.(role := Worker))
        else next
      else node
    case _ => node
  }

  function WorkerStep(start: Start, me: NodeId, node: Node, peer: NodeId, message: Message, env: Env): Node
    requires start.checkpointEvery > 0
  {
    match message
    case Window(w) => HandleWindow(start, me, node, peer, w, env.diskOk)
    case State(state) => HandleState(start, node, peer, state, env.diskOk)
    case Election(request) => node.(ctx := HandleElection(start, node.ctx, peer, request))
    case Commit(commit) => HandleCommit(start, node, peer, commit, env)
    case Ballot(v) => node.(ctx := node.ctx.(votedTerm := Max(node.ctx.votedTerm, v.ackTerm)))
    case Result(_) => node
  }

  predicate CheckpointWindow(start: Start, w: nat)
    requires start.checkpointEvery > 0
  {
    w % start.checkpointEvery == 0 || w == start.maxWindows
  }

  /** One window of the windowed mode after its results are in; false when the job stops with an error. */
  function CloseWindow(start: Start, node: Node, round: Round): (r: (Node, bool))
    requires start.checkpointEvery > 0 && node.ctx.window < start.maxWindows
  {
    var ctx := node.ctx.(window := node.ctx.window + 1, summaries := Overlay(node.ctx.summaries, round.results));
    var closed := Persist(start, node.(ctx := ctx), round.env.diskOk);
    if !round.env.diskOk || !round.stateAcked then (closed, false)
    else if !CheckpointWindow(start, ctx.window) then (closed, true)
    else if !round.env.checkpointOk then (closed, false)
    else
      var committed := closed.(ctx := ctx.(checkpointGeneration := SatAdd(ctx.checkpointGeneration, 1),
                                           checkpoint := Some(round.env.hash)));
      if !round.env.quorumOk then (committed, false)
      else (Persist(start, committed, round.commitWritten), round.commitWritten)
  }

  function LosePeer(start: Start, me: NodeId, node: Node, peer: NodeId, restored: set<NodeId>, env: Env): Node {
    if peer in restored then node.(ctx := node.ctx.(failed := node.ctx.failed - {peer}))
    else if node.ctx.role == Coordinator then
      var (ctx, ok) :=
        ReplaceAggregators(node.ctx.(failed := node.ctx.failed + {peer}), peer, restored, 0);
      node.(ctx := ctx, live := ok)
    else if peer == node.ctx.coordinator then BeginCampaign(start, me, node, peer, env.diskOk)
    else node.(ctx := node.ctx.(failed := node.ctx.failed + {peer}))
  }

  /** `restore_workers`: a finished autonomous job and a job this node coordinated stay stopped. */
  function Reboot(start: Start, me: NodeId, node: Node, manifestOnDisk: bool): Node
    requires start.checkpointEvery > 0
  {
    if start.coordinator == me || me !in start.participants then node.(campaign := None, live := false)
    else if start.autonomous && node.disk.Some? && node.disk.value.checkpoint.Some? && manifestOnDisk
            && StateCoversFinal(start, node.disk.value) then node.(campaign := None, live := false)
    else Node(Restore(start, node.disk), None, node.disk, true)
  }

  /** A worker of an autonomous job retires once it has seen the final checkpoint. */
  function Retire(start: Start, node: Node): Node
    requires start.checkpointEvery > 0
  {
    if start.autonomous && ContextCoversFinal(start, node.ctx) then node.(live := false) else node
  }

  function Step(start: Start, me: NodeId, node: Node, input: Input): Node
    requires start.checkpointEvery > 0
  {
    if input.Restart? then Reboot(start, me, node, input.manifestOnDisk)
    else if !node.live then node
    else
      match input
      case Deliver(peer, message, env) =>
        if node.campaign.Some? then CampaignStep(start, me, node, peer, message, env.diskOk)
        else if node.ctx.role == Coordinator then CoordinatorStep(start, node, peer, message, env)
        else Retire(start, WorkerStep(start, me, node, peer, message, env))
      case GroupAdvanced(window, shardId, summary) =>
        if node.campaign.Some? || node.ctx.role == Coordinator then node
        else node.(ctx := node.ctx.(window := Max(node.ctx.window, window),
                                    summaries := node.ctx.summaries[shardId := summary]))
      case WindowClosed(round) =>
        if node.campaign.Some? || node.ctx.role == Worker || node.ctx.window >= start.maxWindows then node
        else
          var (next, ok) := CloseWindow(start, node, round);
          next.(live := ok)
      case PeerLost(peer, restored, env) =>
        if node.campaign.Some? then node else LosePeer(start, me, node, peer, restored, env)
      case CampaignExpired => node.(campaign := None)
  }
}

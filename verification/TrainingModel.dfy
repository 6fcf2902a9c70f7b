/**
 The state of one node in a V3 training job and the handlers that change it
 (crates/node/src/distributed_training.rs).

 A handler is a function from the node's state to its next state. Outcomes that
 depend on the outside (a disk write, a reconnect, a digest check) are inputs.
 */
module TrainingModel {
  import opened Machine

  type NodeId = nat
  type ShardId = nat
  type GroupId = nat
  type ArtifactId = nat

  datatype Role = Worker | Coordinator

  datatype Group = Group(groupId: GroupId, shardId: ShardId, members: seq<NodeId>, aggregator: NodeId)

  datatype Summary = Summary(generation: u64, stateHash: ArtifactId, providers: seq<NodeId>)

  datatype ShardEntry = ShardEntry(shardId: ShardId, summary: Summary)

  datatype Start = Start(
    jobId: nat, coordinator: NodeId, term: u64, epoch: u64, branch: ArtifactId,
    maxWindows: u64, checkpointEvery: u64, autonomous: bool, participants: seq<NodeId>,
    groups: seq<Group>, shards: seq<ShardEntry>, assignedShard: ShardId)

  datatype Context = Context(
    role: Role, coordinator: NodeId, term: u64, window: u64,
    checkpointGeneration: u64, checkpoint: Option<ArtifactId>, finalCommitted: bool,
    failed: set<NodeId>, votedTerm: u64, votedCandidate: Option<NodeId>,
    summaries: map<ShardId, Summary>, groups: seq<Group>, groupProgress: map<GroupId, u64>,
    rejectedUpdates: u64)

  /** The record a node persists, publishes and restores from. */
  datatype TrainingState = TrainingState(
    jobId: nat, coordinator: NodeId, term: u64, epoch: u64, branch: ArtifactId, window: u64,
    checkpointGeneration: u64, checkpoint: Option<ArtifactId>, shards: seq<ShardEntry>)

  datatype WindowCommand = WindowCommand(
    coordinator: NodeId, term: u64, epoch: u64, branch: ArtifactId, window: u64,
    groupId: GroupId, shardId: ShardId, aggregator: NodeId, members: seq<NodeId>)

  datatype ElectionRequest = ElectionRequest(
    jobId: nat, candidate: NodeId, term: u64, epoch: u64, branch: ArtifactId)

  datatype Vote = Vote(jobId: nat, peer: NodeId, ackTerm: u64, candidate: NodeId, term: u64, granted: bool)

  /** `hashMatches` is the outcome of recomputing the manifest digest. */
  datatype Manifest = Manifest(
    modelGeneration: u64, checkpointGeneration: u64, parent: Option<ArtifactId>,
    shards: seq<ShardEntry>, hash: ArtifactId)

  datatype CheckpointCommit = CheckpointCommit(
    jobId: nat, coordinator: NodeId, term: u64, branch: ArtifactId, manifest: Manifest, hashMatches: bool)

  datatype Aggregate = Aggregate(
    jobId: nat, aggregator: NodeId, term: u64, branch: ArtifactId, window: u64,
    groupId: GroupId, shardId: ShardId, generation: u64, summary: Summary)

  // ----- constants of a job

  function Quorum(size: nat): nat { size / 2 + 1 }

  /** `final_checkpoint_generation`, with its saturating addition. */
  function FinalCheckpointGeneration(start: Start): u64
    requires start.checkpointEvery > 0
  {
    SatAdd(start.maxWindows, SatSub(start.checkpointEvery, 1)) / start.checkpointEvery
  }

  predicate ValidStart(start: Start) {
    && start.term > 0
    && start.maxWindows > 0
    && start.checkpointEvery > 0
    && (forall i, j :: 0 <= i < j < |start.participants| ==> start.participants[i] != start.participants[j])
  }

  predicate SummariesFinal(start: Start, summaries: map<ShardId, Summary>) {
    forall e :: e in start.shards ==>
      e.shardId in summaries && summaries[e.shardId].generation >= start.maxWindows
  }

  /** `context_covers_final_model`. */
  predicate ContextCoversFinal(start: Start, ctx: Context)
    requires start.checkpointEvery > 0
  {
    && ctx.finalCommitted
    && ctx.window >= start.maxWindows
    && ctx.checkpointGeneration >= FinalCheckpointGeneration(start)
    && SummariesFinal(start, ctx.summaries)
  }

  function FindShard(entries: seq<ShardEntry>, id: ShardId): Option<Summary> {
    if entries == [] then None
    else if entries[0].shardId == id then Some(entries[0].summary)
    else FindShard(entries[1..], id)
  }

  /** `state_covers_final_model`. */
  predicate StateCoversFinal(start: Start, state: TrainingState)
    requires start.checkpointEvery > 0
  {
    && state.window >= start.maxWindows
    && state.checkpointGeneration >= FinalCheckpointGeneration(start)
    && forall e :: e in start.shards ==>
         var found := FindShard(state.shards, e.shardId);
         found.Some? && found.value.generation >= start.maxWindows
  }

  // ----- shard summaries: a BTreeMap and its listing in key order

  function Overlay(summaries: map<ShardId, Summary>, entries: seq<ShardEntry>): map<ShardId, Summary> {
    if entries == [] then summaries
    else
      var last := entries[|entries| - 1];
      Overlay(summaries, entries[..|entries| - 1])[last.shardId := last.summary]
  }

  /** Insert only entries that are new or carry a higher generation. */
  function Advance(summaries: map<ShardId, Summary>, entries: seq<ShardEntry>): map<ShardId, Summary> {
    if entries == [] then summaries
    else
      var last := entries[|entries| - 1];
      var before := Advance(summaries, entries[..|entries| - 1]);
      if last.shardId !in before || last.summary.generation > before[last.shardId].generation
      then before[last.shardId := last.summary] else before
  }

  /** `summaries.values()`: the entries in ascending shard order. */
  function Listing(summaries: map<ShardId, Summary>): seq<ShardEntry>
    decreases |summaries|
  {
    if summaries == map[] then []
    else
      var k := Least(summaries.Keys);
      assert (summaries - {k}).Keys == summaries.Keys - {k};
      [ShardEntry(k, summaries[k])] + Listing(summaries - {k})
  }

  // ----- construction, publication, restoration

  function FreshContext(start: Start, role: Role): Context {
    Context(
      role, start.coordinator, start.term, 0, 0, None, false, {}, start.term, None,
      Overlay(map[], start.shards), start.groups,
      map g | g in start.groups :: g.groupId := 0,
      0)
  }

  function Publish(start: Start, ctx: Context): TrainingState {
    TrainingState(start.jobId, ctx.coordinator, ctx.term, start.epoch, start.branch, ctx.window,
                  ctx.checkpointGeneration, ctx.checkpoint, Listing(ctx.summaries))
  }

  /** `restore_workers`: a fresh worker context overlaid with the record on disk. */
  function Restore(start: Start, disk: Option<TrainingState>): Context {
    var initial := FreshContext(start, Worker);
    match disk
    case None => initial
    case Some(state) =>
      initial.(coordinator := state.coordinator, term := state.term, window := state.window,
             checkpointGeneration := state.checkpointGeneration, checkpoint := state.checkpoint,
             summaries := Overlay(initial.summaries, state.shards))
  }
}

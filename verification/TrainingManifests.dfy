/**
 The checkpoints an autonomous coordinator writes: what each manifest holds, and
 that they form one chain from the checkpoint the coordinator started with.
 */
module TrainingManifests {
  import opened Machine
  import opened TrainingModel
  import opened TrainingSteps
  import opened TrainingCheckpoints

  // ----- entering the loop

  /** Where a group stands: the generation of its shard, 0 when the shard is unknown. */
  function Standing(ctx: Context, g: Group): u64 {
    if g.shardId in ctx.summaries then ctx.summaries[g.shardId].generation else 0
  }

  lemma {:induction false} ProgressIs(ctx: Context, groups: seq<Group>)
    requires forall i, j :: 0 <= i < j < |groups| ==> groups[i].groupId != groups[j].groupId
    ensures var p := ProgressFrom(ctx, groups);
            && (forall i :: 0 <= i < |groups| ==>
                  groups[i].groupId in p && p[groups[i].groupId] == Standing(ctx, groups[i]))
            && (forall id :: id in ctx.groupProgress && (forall i :: 0 <= i < |groups| ==> groups[i].groupId != id) ==>
                  id in p && p[id] == ctx.groupProgress[id])
  {
    if groups != [] {
      var before, last := groups[..|groups| - 1], |groups| - 1;
      ProgressIs(ctx, before);
      assert forall i :: 0 <= i < last ==> before[i] == groups[i];
    }
  }

  /**
   The loop starts with every group where its shard is, the groups of final shards
   complete, no checkpoint of its own and the record on disk current.
   */
  lemma OpeningEffect(start: Start, node: Node)
    requires forall i, j :: 0 <= i < j < |node.ctx.groups| ==> node.ctx.groups[i].groupId != node.ctx.groups[j].groupId
    ensures var d, ctx := Enter(start, node), node.ctx;
            && d.node.ctx == ctx.(groupProgress := d.node.ctx.groupProgress)
            && (forall i :: 0 <= i < |ctx.groups| ==>
                  && ctx.groups[i].groupId in d.node.ctx.groupProgress
                  && d.node.ctx.groupProgress[ctx.groups[i].groupId] == Standing(ctx, ctx.groups[i]))
            && (forall id :: id in d.completed <==>
                  exists i :: 0 <= i < |start.groups| && start.groups[i].groupId == id
                              && Final(start, ctx, start.groups[i]))
            && d.manifests == [] && d.node.disk == Some(Publish(start, d.node.ctx))
  {
    ProgressIs(node.ctx, node.ctx.groups);
    CompleteIff(start, node.ctx);
  }

  ghost predicate Final(start: Start, ctx: Context, g: Group) {
    g.shardId in ctx.summaries && ctx.summaries[g.shardId].generation >= start.maxWindows
  }

  lemma CompleteIff(start: Start, ctx: Context)
    ensures forall id :: id in AlreadyComplete(start, ctx) <==>
              exists i :: 0 <= i < |start.groups| && start.groups[i].groupId == id && Final(start, ctx, start.groups[i])
  {
    forall id ensures id in AlreadyComplete(start, ctx) <==>
                        exists i :: 0 <= i < |start.groups| && start.groups[i].groupId == id
                                    && Final(start, ctx, start.groups[i])
    {
      if id in AlreadyComplete(start, ctx) {
        var g :| g in start.groups && Final(start, ctx, g) && g.groupId == id;
        var i :| 0 <= i < |start.groups| && start.groups[i] == g;
      }
      if i :| 0 <= i < |start.groups| && start.groups[i].groupId == id && Final(start, ctx, start.groups[i]) {
        assert start.groups[i] in start.groups;
      }
    }
  }

  // ----- one result

  /** The result is of this term and branch, from a leading member of its group, for its shard, in range and new. */
  ghost predicate Timely(start: Start, ctx: Context, group: Group, peer: NodeId, a: Aggregate) {
    && peer == a.aggregator && peer in group.members && a.shardId == group.shardId
    && a.jobId == start.jobId && a.term == ctx.term && a.branch == start.branch
    && 1 <= a.window <= start.maxWindows
    && (a.shardId in ctx.summaries ==> ctx.summaries[a.shardId].generation < a.generation)
  }

  /**
   A result of no group is ignored, one that is not timely only counted; a timely one
   is recorded and written, and followed by a checkpoint exactly when every shard has
   started and its window closes an interval. The loop goes on exactly when the writes
   and the acknowledgements that needs succeed.
   */
  lemma AggregateEffect(start: Start, node: Node, peer: NodeId, a: Aggregate, env: Env)
    requires start.checkpointEvery > 0
    ensures var (next, ok) := AcceptAggregate(start, node, peer, a, env);
            var ctx, group := node.ctx, FindGroup(node.ctx.groups, a.groupId);
            if group.None? then next == node && ok
            else if !Timely(start, ctx, group.value, peer, a) then
              next == node.(ctx := ctx.(rejectedUpdates := SatAdd(ctx.rejectedUpdates, 1))) && ok
            else
              var recorded := RecordAggregate(ctx, a);
              var due := a.window % start.checkpointEvery == 0
                         && forall s :: s in recorded.summaries ==> recorded.summaries[s].generation > 0;
              && next.ctx == recorded.(checkpoint := next.ctx.checkpoint,
                                       checkpointGeneration := next.ctx.checkpointGeneration,
                                       finalCommitted := next.ctx.finalCommitted)
              && (ok ==> env.diskOk && (due ==> env.checkpointOk) && next.disk == Some(Publish(start, next.ctx))
                         && next.ctx.checkpointGeneration
                            == (if due then SatAdd(ctx.checkpointGeneration, 1) else ctx.checkpointGeneration)
                         && next.ctx.checkpoint == (if due then Some(env.hash) else ctx.checkpoint))
              && (env.diskOk && (due ==> env.checkpointOk && env.quorumOk) ==> ok)
  {
    var group := FindGroup(node.ctx.groups, a.groupId);
    if group.Some? && Timely(start, node.ctx, group.value, peer, a) {
      var recorded := RecordAggregate(node.ctx, a);
      ListingFacts(recorded.summaries, a.shardId);
    }
  }

  // ----- one manifest

  lemma {:induction false} ListingAscends(m: map<ShardId, Summary>)
    ensures forall i, j :: 0 <= i < j < |Listing(m)| ==> Listing(m)[i].shardId < Listing(m)[j].shardId
    decreases |m|
  {
    if m != map[] {
      var k := Least(m.Keys);
      assert (m - {k}).Keys == m.Keys - {k};
      ListingAscends(m - {k});
      var rest := Listing(m - {k});
      assert Listing(m) == [ShardEntry(k, m[k])] + rest;
      forall j | 0 <= j < |rest| ensures k < rest[j].shardId {
        ListingOnly(m - {k}, rest[j]);
      }
    }
  }

  lemma {:induction false} MaxGenerationIs(entries: seq<ShardEntry>)
    ensures forall i :: 0 <= i < |entries| ==> entries[i].summary.generation <= MaxGeneration(entries)
    ensures entries != [] ==> exists i :: 0 <= i < |entries| && entries[i].summary.generation == MaxGeneration(entries)
    ensures entries == [] ==> MaxGeneration(entries) == 0
  {
    if entries != [] {
      var rest, last := entries[..|entries| - 1], |entries| - 1;
      MaxGenerationIs(rest);
      forall i | 0 <= i < last ensures entries[i].summary.generation <= MaxGeneration(entries) {
        assert rest[i] == entries[i];
      }
      if MaxGeneration(entries) != entries[last].summary.generation {
        var i :| 0 <= i < |rest| && rest[i].summary.generation == MaxGeneration(rest);
        assert entries[i] == rest[i];
      }
    }
  }

  lemma ManifestLists(ctx: Context, hash: ArtifactId, e: ShardEntry)
    ensures e in MakeManifest(ctx, hash).shards
            <==> e.shardId in ctx.summaries && ctx.summaries[e.shardId] == e.summary
  {
    if e in Listing(ctx.summaries) {
      ListingOnly(ctx.summaries, e);
    }
    if e.shardId in ctx.summaries {
      ListingFacts(ctx.summaries, e.shardId);
    }
  }

  lemma ManifestGeneration(ctx: Context, hash: ArtifactId)
    ensures var m := MakeManifest(ctx, hash);
            && (forall s :: s in ctx.summaries ==> ctx.summaries[s].generation <= m.modelGeneration)
            && (ctx.summaries != map[] ==>
                  exists s :: s in ctx.summaries && ctx.summaries[s].generation == m.modelGeneration)
  {
    var shards := Listing(ctx.summaries);
    MaxGenerationIs(shards);
    forall s | s in ctx.summaries ensures ctx.summaries[s].generation <= MaxGeneration(shards) {
      ListingFacts(ctx.summaries, s);
    }
    if s :| s in ctx.summaries {
      ListingFacts(ctx.summaries, s);
      var i :| 0 <= i < |shards| && shards[i].summary.generation == MaxGeneration(shards);
      ListingOnly(ctx.summaries, shards[i]);
    }
  }

  /**
   A manifest lists every shard of the context once, in ascending order, as the
   context has it; its model generation is the highest among them.
   */
  lemma ManifestHolds(ctx: Context, hash: ArtifactId)
    ensures var m := MakeManifest(ctx, hash);
            && (forall e :: e in m.shards <==> e.shardId in ctx.summaries && ctx.summaries[e.shardId] == e.summary)
            && (forall i, j :: 0 <= i < j < |m.shards| ==> m.shards[i].shardId < m.shards[j].shardId)
            && (forall s :: s in ctx.summaries ==> ctx.summaries[s].generation <= m.modelGeneration)
            && (ctx.summaries != map[] ==>
                  exists s :: s in ctx.summaries && ctx.summaries[s].generation == m.modelGeneration)
  {
    ListingAscends(ctx.summaries);
    ManifestGeneration(ctx, hash);
    forall e ensures e in MakeManifest(ctx, hash).shards
                     <==> e.shardId in ctx.summaries && ctx.summaries[e.shardId] == e.summary
    {
      ManifestLists(ctx, hash, e);
    }
  }

  // ----- the chain

  /** Where a job stands: the last checkpoint and its number. */
  datatype Tip = Tip(hash: Option<ArtifactId>, generation: u64)

  /** The tip once the first `n` manifests have followed `root`. */
  function TipAt(root: Tip, ms: seq<Manifest>, n: nat): Tip
    requires n <= |ms|
  {
    if n == 0 then root else Tip(Some(ms[n - 1].hash), ms[n - 1].checkpointGeneration)
  }

  /** Every manifest names its predecessor and counts one more. */
  ghost predicate Chained(root: Tip, ms: seq<Manifest>) {
    forall i :: 0 <= i < |ms| ==>
      var tip := TipAt(root, ms, i);
      ms[i].parent == tip.hash && ms[i].checkpointGeneration == SatAdd(tip.generation, 1)
  }

  /** The chain holds and the coordinator stands at its end. */
  ghost predicate OnChain(root: Tip, d: Drive) {
    && Chained(root, d.manifests)
    && Tip(d.node.ctx.checkpoint, d.node.ctx.checkpointGeneration) == TipAt(root, d.manifests, |d.manifests|)
  }

  lemma ChainGrows(root: Tip, ms: seq<Manifest>, ctx: Context, hash: ArtifactId)
    requires Chained(root, ms) && Tip(ctx.checkpoint, ctx.checkpointGeneration) == TipAt(root, ms, |ms|)
    ensures Chained(root, ms + [MakeManifest(ctx, hash)])
  {
    var all := ms + [MakeManifest(ctx, hash)];
    forall i | 0 <= i < |all|
      ensures all[i].parent == TipAt(root, all, i).hash
      ensures all[i].checkpointGeneration == SatAdd(TipAt(root, all, i).generation, 1)
    {
      assert TipAt(root, all, i) == TipAt(root, ms, i);
    }
  }

  lemma ResultOnChain(start: Start, root: Tip, d: Drive, peer: NodeId, a: Aggregate, env: Env)
    requires start.checkpointEvery > 0 && OnChain(root, d)
    ensures var (next, outcome) := AggregateStep(start, d, peer, a, env);
            Chained(root, next.manifests) && (outcome == Running ==> OnChain(root, next))
  {
    var (next, outcome) := AggregateStep(start, d, peer, a, env);
    if outcome == Running && Accepts(start, d.node.ctx, peer, a) {
      AcceptedShape(start, d, peer, a, env);
      var recorded := RecordAggregate(d.node.ctx, a);
      if CommitDue(start, recorded, a) {
        CommitFacts(start, Persist(start, d.node.(ctx := recorded), true), env);
        ChainGrows(root, d.manifests, recorded, env.hash);
      }
    }
  }

  lemma StepOnChain(start: Start, root: Tip, d: Drive, mail: Mail)
    requires start.checkpointEvery > 0 && OnChain(root, d)
    requires d.node.ctx.role == Coordinator && d.node.live && MailFits(start, d.node.ctx, mail, Arbitrary)
    ensures var (next, outcome) := DriveStep(start, d, mail);
            Chained(root, next.manifests) && (outcome == Running ==> OnChain(root, next))
  {
    match mail
    case Message(peer, message, env) =>
      if message.Result? {
        ResultOnChain(start, root, d, peer, message.aggregate, env);
      } else {
        OtherMessageView(start, d.node, peer, message, env);
      }
    case Lost(peer, restored) =>
      ReplaceKeeps(d.node.ctx.(failed := d.node.ctx.failed + {peer}), peer, restored, 0);
  }

  lemma FinishOnChain(start: Start, root: Tip, d: Drive, last: Env)
    requires start.checkpointEvery > 0 && OnChain(root, d)
    ensures var (end, outcome) := Finish(start, d, last);
            Chained(root, end.manifests) && (outcome == Finished ==> OnChain(root, end))
  {
    if CommitCheckpoint(start, d.node, last).1 {
      CommitFacts(start, d.node, last);
      ChainGrows(root, d.manifests, d.node.ctx, last.hash);
    }
  }

  /**
   However the loop ends, the manifests it wrote are one chain from the checkpoint
   it was entered with, each one more than the one before; a loop that finishes
   leaves the coordinator at the end of it.
   */
  lemma {:induction false} CheckpointsFormAChain(start: Start, root: Tip, d: Drive, mailbox: seq<Mail>, last: Env)
    requires start.checkpointEvery > 0 && OnChain(root, d)
    requires d.node.ctx.role == Coordinator && d.node.live && Arrives(start, d, mailbox, Arbitrary)
    ensures var (end, outcome) := DriveLoop(start, d, mailbox, last);
            Chained(root, end.manifests) && (outcome == Finished ==> OnChain(root, end))
    decreases |mailbox|
  {
    if |d.completed| >= |start.groups| {
      FinishOnChain(start, root, d, last);
    } else if mailbox != [] {
      StepOnChain(start, root, d, mailbox[0]);
      if DriveStep(start, d, mailbox[0]).1 == Running {
        StepKeepsRole(start, d, mailbox[0]);
        CheckpointsFormAChain(start, root, DriveStep(start, d, mailbox[0]).0, mailbox[1..], last);
      }
    }
  }

  lemma CommittedStaysStopped(start: Start, me: NodeId, root: Tip, d: Drive)
    requires start.checkpointEvery > 0 && start.autonomous
    requires Committed(start, d) && FlagEarned(start, d) && OnChain(root, d)
    ensures !Step(start, me, d.node, Restart(true)).live
  {
    assert d.node.disk.value.checkpoint.Some?;
  }

  /** The loop ends committed and at the end of its chain. */
  lemma FinishedOnChain(start: Start, d: Drive, mailbox: seq<Mail>, last: Env, root: Tip)
    requires ValidStart(start) && GroupsFit(start)
    requires DriveInv(start, d) && CountKept(start, d.node.ctx) && OnChain(root, d)
    requires d.node.ctx.role == Coordinator && d.node.live && Arrives(start, d, mailbox, Gapless)
    requires DriveLoop(start, d, mailbox, last).1 == Finished
    ensures var end := DriveLoop(start, d, mailbox, last).0;
            Committed(start, end) && FlagEarned(start, end) && OnChain(root, end)
  {
    ArrivesWeaker(start, d, mailbox, Aligned, Gapless);
    ArrivesWeaker(start, d, mailbox, Arbitrary, Gapless);
    FinishedJobIsCommitted(start, d, mailbox, last);
    LoopKeeps(start, d, mailbox, last);
    CheckpointsFormAChain(start, root, d, mailbox, last);
  }

  /**
   An autonomous job whose loop finishes with no result missing stays stopped: a
   restart of its node finds the final manifest and does not revive it.
   */
  lemma FinishedJobStaysStopped(start: Start, me: NodeId, d: Drive, mailbox: seq<Mail>, last: Env)
    requires ValidStart(start) && GroupsFit(start) && start.autonomous
    requires DriveInv(start, d) && CountKept(start, d.node.ctx) && d.manifests == []
    requires d.node.ctx.role == Coordinator && d.node.live && Arrives(start, d, mailbox, Gapless)
    requires DriveLoop(start, d, mailbox, last).1 == Finished
    ensures !Step(start, me, DriveLoop(start, d, mailbox, last).0.node, Restart(true)).live
  {
    var root := Tip(d.node.ctx.checkpoint, d.node.ctx.checkpointGeneration);
    FinishedOnChain(start, d, mailbox, last, root);
    CommittedStaysStopped(start, me, root, DriveLoop(start, d, mailbox, last).0);
  }
}

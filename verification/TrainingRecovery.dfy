/**
 A coordinator elected in the middle of a run: what its context is certain to
 satisfy when it enters the autonomous loop, and what it may miss.
 */
module TrainingRecovery {
  import opened Machine
  import opened TrainingModel
  import opened TrainingSteps
  import opened TrainingProgress
  import opened TrainingCheckpoints

  /** The shards an input can add to a context; a result is accepted only for the shard of its group. */
  function ShardsNamed(input: Input): set<ShardId> {
    match input
    case Deliver(_, message, _) => MessageShards(message)
    case GroupAdvanced(_, shardId, _) => {shardId}
    case WindowClosed(round) => EntryShards(round.results)
    case _ => {}
  }

  function MessageShards(message: Message): set<ShardId> {
    match message
    case State(state) => EntryShards(state.shards)
    case Commit(commit) => EntryShards(commit.manifest.shards)
    case _ => {}
  }

  ghost predicate DiskOnTopic(start: Start, disk: Option<TrainingState>) {
    disk.Some? ==> EntryShards(disk.value.shards) <= GroupShards(start.groups)
  }

  ghost predicate NodeTracks(start: Start, node: Node) {
    Tracks(start, node.ctx) && DiskOnTopic(start, node.disk)
  }

  // ----- the keys of merged maps

  lemma {:induction false} MergedKeys(base: map<ShardId, Summary>, entries: seq<ShardEntry>)
    ensures Overlay(base, entries).Keys == base.Keys + EntryShards(entries)
    ensures Advance(base, entries).Keys == base.Keys + EntryShards(entries)
  {
    if entries == [] {
      assert EntryShards(entries) == {};
    } else {
      var rest, last := entries[..|entries| - 1], entries[|entries| - 1];
      MergedKeys(base, rest);
      assert entries == rest + [last];
      assert EntryShards(entries) == EntryShards(rest) + {last.shardId};
    }
  }

  lemma ListedKeys(m: map<ShardId, Summary>)
    ensures EntryShards(Listing(m)) == m.Keys
  {
    forall s ensures s in EntryShards(Listing(m)) <==> s in m {
      if s in EntryShards(Listing(m)) {
        var e :| e in Listing(m) && e.shardId == s;
        ListingOnly(m, e);
      }
      if s in m {
        ListingFacts(m, s);
      }
    }
  }

  lemma PersistTracks(start: Start, node: Node, ok: bool)
    requires NodeTracks(start, node)
    ensures NodeTracks(start, Persist(start, node, ok))
  {
    ListedKeys(node.ctx.summaries);
  }

  // ----- one step

  lemma StateTracks(start: Start, node: Node, peer: NodeId, state: TrainingState, ok: bool)
    requires NodeTracks(start, node) && EntryShards(state.shards) <= GroupShards(start.groups)
    ensures NodeTracks(start, HandleState(start, node, peer, state, ok))
    ensures Tracks(start, Recover(node.ctx, state))
  {
    MergedKeys(node.ctx.summaries, state.shards);
    PersistTracks(start, node.(ctx := MergeState(node.ctx, state)), ok);
  }

  lemma CommitTracks(start: Start, node: Node, peer: NodeId, commit: CheckpointCommit, env: Env)
    requires start.checkpointEvery > 0 && NodeTracks(start, node)
    requires EntryShards(commit.manifest.shards) <= GroupShards(start.groups)
    ensures NodeTracks(start, HandleCommit(start, node, peer, commit, env))
  {
    MergedKeys(node.ctx.summaries, commit.manifest.shards);
    PersistTracks(start, node.(ctx := ApplyCommit(start, node.ctx, commit)), env.diskOk);
  }

  lemma WindowTracks(start: Start, me: NodeId, node: Node, peer: NodeId, w: WindowCommand, ok: bool)
    requires NodeTracks(start, node)
    ensures NodeTracks(start, HandleWindow(start, me, node, peer, w, ok))
  {
    PersistTracks(start, node.(ctx := node.ctx.(term := w.term, coordinator := w.coordinator, failed := {})), ok);
  }

  lemma CheckpointTracks(start: Start, node: Node, env: Env)
    requires start.checkpointEvery > 0 && NodeTracks(start, node)
    ensures NodeTracks(start, CommitCheckpoint(start, node, env).0)
  {
    ListedKeys(node.ctx.summaries);
  }

  lemma ResultTracks(start: Start, node: Node, peer: NodeId, a: Aggregate, env: Env)
    requires start.checkpointEvery > 0 && NodeTracks(start, node)
    ensures NodeTracks(start, AcceptAggregate(start, node, peer, a, env).0)
  {
    if Accepts(start, node.ctx, peer, a) {
      AcceptedTracks(start, node.ctx, peer, a);
      var recorded := node.(ctx := RecordAggregate(node.ctx, a));
      PersistTracks(start, recorded, env.diskOk);
      CheckpointTracks(start, Persist(start, recorded, env.diskOk), env);
    }
  }

  lemma TallyTracks(start: Start, me: NodeId, node: Node, campaign: Campaign, ok: bool)
    requires NodeTracks(start, node)
    ensures NodeTracks(start, Tally(start, me, node, campaign, ok))
  {
    PersistTracks(start, node.(ctx := Elected(me, node.ctx, campaign), campaign := None), ok);
  }

  lemma CloseTracks(start: Start, node: Node, round: Round)
    requires start.checkpointEvery > 0 && node.ctx.window < start.maxWindows && NodeTracks(start, node)
    requires EntryShards(round.results) <= GroupShards(start.groups)
    ensures NodeTracks(start, CloseWindow(start, node, round).0)
  {
    MergedKeys(node.ctx.summaries, round.results);
    ListedKeys(Overlay(node.ctx.summaries, round.results));
  }

  lemma LossTracks(start: Start, me: NodeId, node: Node, peer: NodeId, restored: set<NodeId>, env: Env)
    requires NodeTracks(start, node)
    ensures NodeTracks(start, LosePeer(start, me, node, peer, restored, env))
  {
    var ctx := node.ctx.(failed := node.ctx.failed + {peer});
    ReplaceKeeps(ctx, peer, restored, 0);
    var campaign := Campaign(SatAdd(ctx.term, 1), peer, ctx.term, ctx.coordinator, {me});
    TallyTracks(start, me, node.(ctx := ctx, campaign := Some(campaign)), campaign, env.diskOk);
  }

  lemma RebootTracks(start: Start, me: NodeId, node: Node, manifestOnDisk: bool)
    requires start.checkpointEvery > 0 && GroupsFit(start) && NodeTracks(start, node)
    ensures NodeTracks(start, Reboot(start, me, node, manifestOnDisk))
  {
    MergedKeys(map[], start.shards);
    if node.disk.Some? {
      MergedKeys(FreshContext(start, Worker).summaries, node.disk.value.shards);
    }
  }

  lemma DeliverTracks(start: Start, me: NodeId, node: Node, peer: NodeId, message: Message, env: Env)
    requires start.checkpointEvery > 0 && NodeTracks(start, node)
    requires MessageShards(message) <= GroupShards(start.groups)
    ensures NodeTracks(start, Step(start, me, node, Deliver(peer, message, env)))
  {
    match message {
      case Window(w) => WindowTracks(start, me, node, peer, w, env.diskOk);
      case State(state) => StateTracks(start, node, peer, state, env.diskOk);
      case Commit(commit) => CommitTracks(start, node, peer, commit, env);
      case Result(a) => ResultTracks(start, node, peer, a, env);
      case Ballot(v) =>
        if node.campaign.Some? {
          var c := node.campaign.value;
          TallyTracks(start, me, node, c.(votes := c.votes + {peer}), env.diskOk);
        }
      case Election(_) =>
    }
  }

  lemma StepTracks(start: Start, me: NodeId, node: Node, input: Input)
    requires start.checkpointEvery > 0 && GroupsFit(start) && NodeTracks(start, node)
    requires ShardsNamed(input) <= GroupShards(start.groups)
    ensures NodeTracks(start, Step(start, me, node, input))
  {
    match input {
      case Restart(manifestOnDisk) => RebootTracks(start, me, node, manifestOnDisk);
      case Deliver(peer, message, env) => DeliverTracks(start, me, node, peer, message, env);
      case WindowClosed(round) =>
        if node.ctx.window < start.maxWindows {
          CloseTracks(start, node, round);
        }
      case PeerLost(peer, restored, env) => LossTracks(start, me, node, peer, restored, env);
      case _ =>
    }
  }

  /** While messages name only shards of the job, every run tracks exactly the job's groups and shards. */
  lemma {:induction false} RunTracks(start: Start, me: NodeId, role: Role, inputs: seq<Input>)
    requires start.checkpointEvery > 0 && GroupsFit(start)
    requires forall i :: 0 <= i < |inputs| ==> ShardsNamed(inputs[i]) <= GroupShards(start.groups)
    ensures NodeTracks(start, Run(start, me, FreshNode(start, role), inputs))
  {
    if inputs == [] {
      MergedKeys(map[], start.shards);
    } else {
      RunTracks(start, me, role, inputs[..|inputs| - 1]);
      StepTracks(start, me, Run(start, me, FreshNode(start, role), inputs[..|inputs| - 1]), inputs[|inputs| - 1]);
    }
  }

  // ----- entering the loop

  /**
   A node elected anywhere in a run, whatever it recovered and whatever arrives
   after, has the final flag when its job reports success exactly when it had it
   before, or every shard is final and the checkpoints it inherited, the ones it
   takes and the closing one reach the final generation.
   */
  lemma ElectedJobFlagIff(start: Start, me: NodeId, role: Role, inputs: seq<Input>, mailbox: seq<Mail>, last: Env)
    requires ValidStart(start) && GroupsFit(start)
    requires forall i :: 0 <= i < |inputs| ==> ShardsNamed(inputs[i]) <= GroupShards(start.groups)
    requires var node := Run(start, me, FreshNode(start, role), inputs);
             && node.live && node.ctx.role == Coordinator
             && Arrives(start, Enter(start, node), mailbox, Arbitrary)
             && DriveLoop(start, Enter(start, node), mailbox, last).1 == Finished
    ensures var node := Run(start, me, FreshNode(start, role), inputs);
            var end := DriveLoop(start, Enter(start, node), mailbox, last).0.node.ctx;
            end.finalCommitted <==>
              || node.ctx.finalCommitted
              || (AllFinal(start, end)
                  && node.ctx.checkpointGeneration + Taken(start, Enter(start, node), mailbox) + 1
                     >= FinalCheckpointGeneration(start))
  {
    var node := Run(start, me, FreshNode(start, role), inputs);
    RunTracks(start, me, role, inputs);
    FinishedFlagIff(start, Enter(start, node), mailbox, last);
  }

  /**
   The full invariant of the loop asks for more. A context that tracks the job
   has it on entry exactly when no shard is past max_windows or past the window,
   and no final checkpoint was already committed elsewhere.
   */
  lemma EntersWithInvariantIff(start: Start, node: Node)
    requires start.checkpointEvery > 0 && Tracks(start, node.ctx)
    ensures DriveInv(start, Enter(start, node)) <==>
              && (forall s :: s in node.ctx.summaries ==>
                    node.ctx.summaries[s].generation <= Min(start.maxWindows, node.ctx.window))
              && !node.ctx.finalCommitted
  {
    var d := Enter(start, node);
    SameShards(start, node.ctx, d.node.ctx);
    assert d.node.ctx.summaries == node.ctx.summaries && d.node.ctx.window == node.ctx.window;
  }

  /** A state of a later term and an earlier window leaves a shard past the window. */
  lemma LaterTermLowersWindow(start: Start, node: Node, peer: NodeId, state: TrainingState, s: ShardId, ok: bool)
    requires !StateRefused(start, node.ctx, peer, state) && state.term > node.ctx.term
    requires s in node.ctx.summaries && state.window < node.ctx.summaries[s].generation
    ensures var next := HandleState(start, node, peer, state, ok).ctx;
            s in next.summaries && next.window < next.summaries[s].generation
  {
    AdvanceKeeps(node.ctx.summaries, state.shards, s);
  }

  lemma {:induction false} AdvanceKeeps(base: map<ShardId, Summary>, entries: seq<ShardEntry>, s: ShardId)
    requires s in base
    ensures s in Advance(base, entries) && Advance(base, entries)[s].generation >= base[s].generation
  {
    if entries != [] {
      AdvanceKeeps(base, entries[..|entries| - 1], s);
    }
  }
}

/**
 What each handler of a training node does, said about the states before and
 after it and not through the functions that compute it.
 */
module TrainingEffects {
  import opened Machine
  import opened TrainingModel
  import opened TrainingSteps

  // ----- merging shard summaries

  ghost predicate Names(entries: seq<ShardEntry>, s: ShardId) {
    exists i :: 0 <= i < |entries| && entries[i].shardId == s
  }

  /**
   `next` is `base` brought up to date with the entries: nothing is lost, nothing
   goes back, every entry is met or exceeded, only newer summaries replace one,
   and nothing comes from elsewhere.
   */
  ghost predicate BroughtUp(base: map<ShardId, Summary>, entries: seq<ShardEntry>, next: map<ShardId, Summary>) {
    && (forall s :: s in base ==> s in next && (next[s] == base[s] || next[s].generation > base[s].generation))
    && (forall i :: 0 <= i < |entries| ==>
          entries[i].shardId in next && next[entries[i].shardId].generation >= entries[i].summary.generation)
    && (forall s :: s in next ==> (s in base && next[s] == base[s]) || ShardEntry(s, next[s]) in entries)
  }

  lemma {:induction false} AdvanceBringsUp(base: map<ShardId, Summary>, entries: seq<ShardEntry>)
    ensures BroughtUp(base, entries, Advance(base, entries))
  {
    if entries != [] {
      var rest, last := entries[..|entries| - 1], entries[|entries| - 1];
      AdvanceBringsUp(base, rest);
      assert entries == rest + [last];
      BroughtUpByOne(base, rest, Advance(base, rest), last);
    }
  }

  lemma BroughtUpByOne(
    base: map<ShardId, Summary>, rest: seq<ShardEntry>, mid: map<ShardId, Summary>, last: ShardEntry)
    requires BroughtUp(base, rest, mid)
    ensures var next := if last.shardId !in mid || last.summary.generation > mid[last.shardId].generation
                        then mid[last.shardId := last.summary] else mid;
            BroughtUp(base, rest + [last], next)
  {
    var next := if last.shardId !in mid || last.summary.generation > mid[last.shardId].generation
                then mid[last.shardId := last.summary] else mid;
    var all := rest + [last];
    assert all[|rest|] == last;
    forall i | 0 <= i < |all|
      ensures all[i].shardId in next && next[all[i].shardId].generation >= all[i].summary.generation
    {
      assert i < |rest| ==> all[i] == rest[i];
    }
    forall s | s in next ensures (s in base && next[s] == base[s]) || ShardEntry(s, next[s]) in all {
      if s == last.shardId && next[s] == last.summary {
        assert ShardEntry(s, next[s]) == last;
      }
    }
  }

  /** `next` is `base` with the entries written over it in order: the last entry of a shard wins. */
  ghost predicate WrittenOver(base: map<ShardId, Summary>, entries: seq<ShardEntry>, next: map<ShardId, Summary>) {
    && (forall s :: s in next <==> s in base || Names(entries, s))
    && (forall s :: s in base && !Names(entries, s) ==> next[s] == base[s])
    && (forall i :: 0 <= i < |entries| && LastWord(entries, i) ==> next[entries[i].shardId] == entries[i].summary)
  }

  /** No later entry is of the same shard. */
  ghost predicate LastWord(entries: seq<ShardEntry>, i: nat)
    requires i < |entries|
  {
    forall j :: i < j < |entries| ==> entries[j].shardId != entries[i].shardId
  }

  lemma {:induction false} OverlayWritesOver(base: map<ShardId, Summary>, entries: seq<ShardEntry>)
    ensures WrittenOver(base, entries, Overlay(base, entries))
  {
    if entries != [] {
      var rest, last := entries[..|entries| - 1], entries[|entries| - 1];
      OverlayWritesOver(base, rest);
      var next := Overlay(base, entries);
      forall s ensures Names(entries, s) <==> Names(rest, s) || s == last.shardId {
        NamesSnoc(entries, s);
      }
      forall i | 0 <= i < |entries| && LastWord(entries, i)
        ensures entries[i].shardId in next && next[entries[i].shardId] == entries[i].summary
      {
        if i < |rest| {
          assert entries[|rest|].shardId != entries[i].shardId;
          assert rest[i] == entries[i];
          assert forall j :: i < j < |rest| ==> rest[j] == entries[j];
        }
      }
    }
  }

  lemma NamesSnoc(entries: seq<ShardEntry>, s: ShardId)
    requires entries != []
    ensures Names(entries, s) <==> Names(entries[..|entries| - 1], s) || s == entries[|entries| - 1].shardId
  {
    var rest := entries[..|entries| - 1];
    if Names(entries, s) {
      var i :| 0 <= i < |entries| && entries[i].shardId == s;
      assert i < |rest| ==> rest[i] == entries[i];
    }
    if Names(rest, s) {
      var i :| 0 <= i < |rest| && rest[i].shardId == s;
      assert entries[i] == rest[i];
    }
  }

  // ----- a published state

  /** A state from its author, of the job and branch, that is not behind and does not rival the node's checkpoint. */
  ghost predicate Admissible(start: Start, ctx: Context, peer: NodeId, state: TrainingState) {
    && peer == state.coordinator && state.jobId == start.jobId && state.branch == start.branch
    && (state.term > ctx.term || (state.term == ctx.term && state.window >= ctx.window))
    && !(state.term == ctx.term && state.checkpointGeneration == ctx.checkpointGeneration
         && state.checkpoint.Some? && ctx.checkpoint.Some? && state.checkpoint != ctx.checkpoint)
  }

  /**
   What a published state does to a node. One that is not admissible changes
   nothing. An admissible one gives the node its coordinator, term and window,
   brings its shards up to date, raises its checkpoint and leaves the rest alone;
   what is then on disk is the new record, or the old one if the write failed.
   */
  ghost predicate StateTaken(
    start: Start, node: Node, peer: NodeId, state: TrainingState, diskOk: bool, next: Node)
  {
    var ctx := node.ctx;
    if !Admissible(start, ctx, peer, state) then next == node
    else
      && next.ctx == ctx.(coordinator := state.coordinator, term := state.term, window := state.window,
                          summaries := next.ctx.summaries, checkpoint := next.ctx.checkpoint,
                          checkpointGeneration := Max(ctx.checkpointGeneration, state.checkpointGeneration))
      && BroughtUp(ctx.summaries, state.shards, next.ctx.summaries)
      && (state.checkpointGeneration > ctx.checkpointGeneration ==> next.ctx.checkpoint == state.checkpoint)
      && (state.checkpointGeneration < ctx.checkpointGeneration ==> next.ctx.checkpoint == ctx.checkpoint)
      && (state.checkpointGeneration == ctx.checkpointGeneration ==>
            next.ctx.checkpoint == if ctx.checkpoint.Some? then ctx.checkpoint else state.checkpoint)
      && next.campaign == node.campaign && next.live == node.live
      && next.disk == if diskOk then Some(Publish(start, next.ctx)) else node.disk
  }

  lemma StateEffect(start: Start, node: Node, peer: NodeId, state: TrainingState, diskOk: bool)
    ensures StateTaken(start, node, peer, state, diskOk, HandleState(start, node, peer, state, diskOk))
  {
    AdvanceBringsUp(node.ctx.summaries, state.shards);
  }

  // ----- recovery metadata during a campaign

  /** It comes from a participant, is of the term that just ended, and is ahead in something. */
  ghost predicate Recovers(start: Start, me: NodeId, ctx: Context, c: Campaign, peer: NodeId, state: TrainingState) {
    && peer != me && peer in start.participants && state.jobId == start.jobId && state.branch == start.branch
    && state.term == c.previousTerm && state.coordinator == c.previousCoordinator
    && (|| state.window > ctx.window || state.checkpointGeneration > ctx.checkpointGeneration
        || exists i :: 0 <= i < |state.shards| && AheadOf(ctx.summaries, state.shards[i]))
  }

  predicate AheadOf(summaries: map<ShardId, Summary>, e: ShardEntry) {
    e.shardId !in summaries || e.summary.generation > summaries[e.shardId].generation
  }

  /**
   What a state does to a candidate that hears it: one that recovers something
   brings its shards up to date and leaves it with the larger window and checkpoint
   generation and the state's checkpoint; any other changes nothing.
   */
  ghost predicate RecoveryTaken(
    start: Start, me: NodeId, ctx: Context, c: Campaign, peer: NodeId, state: TrainingState, next: Context)
  {
    if !Recovers(start, me, ctx, c, peer, state) then next == ctx
    else
      && next == ctx.(window := Max(ctx.window, state.window), checkpoint := state.checkpoint,
                      checkpointGeneration := Max(ctx.checkpointGeneration, state.checkpointGeneration),
                      summaries := next.summaries)
      && BroughtUp(ctx.summaries, state.shards, next.summaries)
  }

  lemma RecoveryEffect(start: Start, me: NodeId, node: Node, peer: NodeId, state: TrainingState, diskOk: bool)
    requires node.campaign.Some?
    ensures var next := CampaignStep(start, me, node, peer, State(state), diskOk);
            && RecoveryTaken(start, me, node.ctx, node.campaign.value, peer, state, next.ctx)
            && next == node.(ctx := next.ctx)
  {
    AdvanceBringsUp(node.ctx.summaries, state.shards);
    NewsIff(node.ctx, state);
  }

  lemma NewsIff(ctx: Context, state: TrainingState)
    ensures IsNews(ctx, state) <==>
              || state.window > ctx.window || state.checkpointGeneration > ctx.checkpointGeneration
              || exists i :: 0 <= i < |state.shards| && AheadOf(ctx.summaries, state.shards[i])
  {
    if exists e :: e in state.shards && AheadOf(ctx.summaries, e) {
      var e :| e in state.shards && AheadOf(ctx.summaries, e);
      var i :| 0 <= i < |state.shards| && state.shards[i] == e;
    }
    if i :| 0 <= i < |state.shards| && AheadOf(ctx.summaries, state.shards[i]) {
      assert state.shards[i] in state.shards;
    }
  }

  /**
   Recovery always takes the state's checkpoint, but the larger generation. The two
   belong together afterwards, both the candidate's or both the state's, exactly when
   the state is not behind in checkpoints or names the same one.
   */
  lemma RecoveryKeepsPairIff(start: Start, me: NodeId, node: Node, peer: NodeId, state: TrainingState, diskOk: bool)
    requires node.campaign.Some? && Recovers(start, me, node.ctx, node.campaign.value, peer, state)
    ensures var ctx, next := node.ctx, CampaignStep(start, me, node, peer, State(state), diskOk).ctx;
            var pair := (next.checkpointGeneration, next.checkpoint);
            pair == (ctx.checkpointGeneration, ctx.checkpoint) || pair == (state.checkpointGeneration, state.checkpoint)
            <==> state.checkpointGeneration >= ctx.checkpointGeneration || state.checkpoint == ctx.checkpoint
  {
    RecoveryEffect(start, me, node, peer, state, diskOk);
  }

  /** A later window with an earlier checkpoint: the generation stays and the checkpoint goes back. */
  lemma RecoveryMixesCheckpoints(
    start: Start, me: NodeId, node: Node, peer: NodeId, state: TrainingState, diskOk: bool)
    requires node.campaign.Some? && Recovers(start, me, node.ctx, node.campaign.value, peer, state)
    requires node.ctx.checkpointGeneration == 2 && node.ctx.checkpoint == Some(20)
    requires state.checkpointGeneration == 1 && state.checkpoint == Some(10) && state.window > node.ctx.window
    ensures var next := CampaignStep(start, me, node, peer, State(state), diskOk).ctx;
            next.checkpointGeneration == 2 && next.checkpoint == Some(10)
  {
    RecoveryEffect(start, me, node, peer, state, diskOk);
  }

  // ----- a checkpoint commit

  /**
   A commit is adopted when it comes from its author, is of the job and branch,
   is behind neither the term nor the checkpoint, carries its own digest and can be
   written. Then term, coordinator and checkpoint are the commit's, the window does
   not fall, and the manifest's shards are written over the node's.
   */
  ghost predicate CommitTaken(start: Start, node: Node, peer: NodeId, commit: CheckpointCommit, env: Env, next: Node)
    requires start.checkpointEvery > 0
  {
    var ctx, m := node.ctx, commit.manifest;
    var adopted := && peer == commit.coordinator && commit.jobId == start.jobId
                   && commit.branch == start.branch && commit.term >= ctx.term
                   && m.checkpointGeneration >= ctx.checkpointGeneration && commit.hashMatches
                   && env.checkpointOk;
    if !adopted then next == node
    else
      && next.ctx == ctx.(term := commit.term, coordinator := commit.coordinator,
                          window := Max(ctx.window, m.modelGeneration), checkpoint := Some(m.hash),
                          checkpointGeneration := m.checkpointGeneration,
                          summaries := next.ctx.summaries, finalCommitted := next.ctx.finalCommitted)
      && WrittenOver(ctx.summaries, m.shards, next.ctx.summaries)
      && (next.ctx.finalCommitted <==>
            && m.checkpointGeneration >= FinalCheckpointGeneration(start)
            && forall i :: 0 <= i < |m.shards| ==> m.shards[i].summary.generation >= start.maxWindows)
      && next.campaign == node.campaign && next.live == node.live
      && next.disk == if env.diskOk then Some(Publish(start, next.ctx)) else node.disk
  }

  lemma CommitEffect(start: Start, node: Node, peer: NodeId, commit: CheckpointCommit, env: Env)
    requires start.checkpointEvery > 0
    ensures CommitTaken(start, node, peer, commit, env, HandleCommit(start, node, peer, commit, env))
  {
    OverlayWritesOver(node.ctx.summaries, commit.manifest.shards);
  }

  // ----- a window command

  /**
   A worker obeys the coordinator or the aggregator of the group it is told to
   work in, for its own shard. A later term is written before the window moves,
   and the window moves only if that write succeeds; it never falls.
   */
  ghost predicate WindowTaken(
    start: Start, me: NodeId, node: Node, peer: NodeId, w: WindowCommand, diskOk: bool, next: Node)
  {
    var ctx := node.ctx;
    var obeyed := && ctx.role == Worker && me in w.members && w.shardId == start.assignedShard
                  && (peer == w.coordinator || (peer == w.aggregator && peer in w.members))
                  && (w.coordinator == start.coordinator || w.coordinator in start.participants)
                  && (forall i :: 0 <= i < |w.members| ==> w.members[i] in start.participants)
                  && w.term >= ctx.term && w.epoch == start.epoch && w.branch == start.branch;
    var promoted := ctx.(term := w.term, coordinator := w.coordinator, failed := {});
    if !obeyed then next == node.(ctx := ctx.(rejectedUpdates := SatAdd(ctx.rejectedUpdates, 1)))
    else if w.term > ctx.term && !diskOk then next == node.(ctx := promoted)
    else
      && next.ctx == (if w.term > ctx.term then promoted else ctx).(
                       window := Max(ctx.window, w.window),
                       groupProgress := ctx.groupProgress[w.groupId := w.window])
      && next.campaign == node.campaign && next.live == node.live
      && next.disk == if w.term > ctx.term then Some(Publish(start, promoted)) else node.disk
  }

  lemma WindowEffect(start: Start, me: NodeId, node: Node, peer: NodeId, w: WindowCommand, diskOk: bool)
    ensures WindowTaken(start, me, node, peer, w, diskOk, HandleWindow(start, me, node, peer, w, diskOk))
  {
    MembersIff(start, w);
  }

  lemma MembersIff(start: Start, w: WindowCommand)
    ensures (exists m :: m in w.members && m !in start.participants)
            <==> !(forall i :: 0 <= i < |w.members| ==> w.members[i] in start.participants)
  {
    if m :| m in w.members && m !in start.participants {
      var i :| 0 <= i < |w.members| && w.members[i] == m;
    }
    if i :| 0 <= i < |w.members| && w.members[i] !in start.participants {
      assert w.members[i] in w.members;
    }
  }

  // ----- votes

  /**
   A request from the candidate itself, of the job, is answered; the vote is given
   to every term above the node's own, and again to the candidate already voted
   for. Only a vote for a higher term is recorded, and nothing else changes; of two
   candidates of one term above the node's, the later request wins the record.
   */
  ghost predicate Voted(
    start: Start, ctx: Context, peer: NodeId, request: ElectionRequest, answer: Option<bool>, next: Context)
  {
    var answered := && peer == request.candidate && request.candidate in start.participants
                    && request.jobId == start.jobId && request.epoch == start.epoch && request.branch == start.branch;
    && (answer.Some? <==> answered)
    && (answered ==>
          (answer.value <==>
             request.term > ctx.term
             || (request.term == ctx.votedTerm && ctx.votedCandidate == Some(request.candidate))))
    && next == if answered && request.term > ctx.term
               then ctx.(votedTerm := request.term, votedCandidate := Some(request.candidate)) else ctx
  }

  lemma VoteEffect(start: Start, ctx: Context, peer: NodeId, request: ElectionRequest)
    ensures var answer := if ElectionRefused(start, peer, request) then None else Some(Grants(ctx, request));
            Voted(start, ctx, peer, request, answer, HandleElection(start, ctx, peer, request))
  {
  }

  /** The winner coordinates the campaign's term, has voted for itself, and holds only the old coordinator failed. */
  lemma ElectedEffect(start: Start, me: NodeId, node: Node, c: Campaign, diskOk: bool)
    requires |c.votes| >= |start.participants| / 2 + 1
    ensures var next := Tally(start, me, node, c, diskOk);
            && next.ctx == node.ctx.(role := Coordinator, term := c.term, coordinator := me, votedTerm := c.term,
                                     votedCandidate := Some(me), failed := {c.failedCoordinator})
            && next.campaign.None? && next.live == node.live
            && next.disk == if diskOk then Some(Publish(start, next.ctx)) else node.disk
  {
  }

  // ----- who stands

  predicate Alive(start: Start, ctx: Context, p: NodeId) { p in start.participants && p !in ctx.failed }

  /** Alive, and in charge of no group. */
  predicate Free(start: Start, ctx: Context, p: NodeId) {
    Alive(start, ctx, p) && forall i :: 0 <= i < |ctx.groups| ==> ctx.groups[i].aggregator != p
  }

  /** The lowest participant alive and in charge of no group stands, or the lowest alive when all lead one. */
  lemma OwnerIff(start: Start, me: NodeId, ctx: Context)
    ensures OwnsElection(start, me, ctx) <==>
              if exists p :: Free(start, ctx, p)
              then Free(start, ctx, me) && forall p :: Free(start, ctx, p) ==> me <= p
              else Alive(start, ctx, me) && forall p :: Alive(start, ctx, p) ==> me <= p
  {
    var preferred, all := Eligible(start, ctx, true), Eligible(start, ctx, false);
    forall p ensures p in preferred <==> Free(start, ctx, p) {
      EligibleIff(start, ctx, p);
    }
    forall p ensures p in all <==> Alive(start, ctx, p) {
    }
    if p :| Free(start, ctx, p) {
      assert p in preferred;
    }
  }

  lemma EligibleIff(start: Start, ctx: Context, p: NodeId)
    ensures p in Eligible(start, ctx, true) <==> Free(start, ctx, p)
  {
    if exists g :: g in ctx.groups && g.aggregator == p {
      var g :| g in ctx.groups && g.aggregator == p;
      var i :| 0 <= i < |ctx.groups| && ctx.groups[i] == g;
    }
    if i :| 0 <= i < |ctx.groups| && ctx.groups[i].aggregator == p {
      assert ctx.groups[i] in ctx.groups;
    }
  }

  /** Nodes with one view of the failures never stand against each other, and somebody stands while anybody is alive. */
  lemma OneOwner(start: Start, ctx: Context)
    ensures forall a, b :: OwnsElection(start, a, ctx) && OwnsElection(start, b, ctx) ==> a == b
    ensures (exists p :: Alive(start, ctx, p)) <==> (exists p :: OwnsElection(start, p, ctx))
  {
    var preferred, all := Eligible(start, ctx, true), Eligible(start, ctx, false);
    var pool := if preferred == {} then all else preferred;
    if p :| Alive(start, ctx, p) {
      assert p in all;
      var owner := Least(pool);
      assert OwnsElection(start, owner, ctx);
    }
    if p :| OwnsElection(start, p, ctx) {
      assert Alive(start, ctx, p);
    }
  }

  // ----- a result

  /**
   An accepted result replaces its shard's summary and moves its group's progress;
   the window does not fall, and no other shard or group is touched.
   */
  lemma ResultEffect(ctx: Context, a: Aggregate)
    ensures var next := RecordAggregate(ctx, a);
            && next == ctx.(window := Max(ctx.window, a.window), groupProgress := next.groupProgress,
                            summaries := next.summaries)
            && next.summaries.Keys == ctx.summaries.Keys + {a.shardId}
            && next.summaries[a.shardId] == Summary(a.generation, a.summary.stateHash, a.summary.providers)
            && (forall s :: s in ctx.summaries && s != a.shardId ==> next.summaries[s] == ctx.summaries[s])
            && next.groupProgress.Keys == ctx.groupProgress.Keys + {a.groupId}
            && next.groupProgress[a.groupId] == a.window
            && (forall g :: g in ctx.groupProgress && g != a.groupId ==> next.groupProgress[g] == ctx.groupProgress[g])
  {
  }

  // ----- a round of the windowed mode

  /**
   A closed window counts one, writes the round's results over the shards and is
   followed by a checkpoint when one is due. The job goes on exactly when every
   write and acknowledgement of the round succeeded.
   */
  lemma RoundEffect(start: Start, node: Node, round: Round)
    requires start.checkpointEvery > 0 && node.ctx.window < start.maxWindows
    ensures var (next, ok) := CloseWindow(start, node, round);
            var ctx, env, w := node.ctx, round.env, node.ctx.window + 1;
            var due := w % start.checkpointEvery == 0 || w == start.maxWindows;
            && (ok <==> env.diskOk && round.stateAcked
                        && (due ==> env.checkpointOk && env.quorumOk && round.commitWritten))
            && next.ctx == ctx.(window := w, summaries := next.ctx.summaries, checkpoint := next.ctx.checkpoint,
                                checkpointGeneration := next.ctx.checkpointGeneration)
            && WrittenOver(ctx.summaries, round.results, next.ctx.summaries)
            && (ok ==>
                  && next.ctx.checkpoint == (if due then Some(env.hash) else ctx.checkpoint)
                  && next.ctx.checkpointGeneration
                     == (if due then SatAdd(ctx.checkpointGeneration, 1) else ctx.checkpointGeneration)
                  && next.disk == Some(Publish(start, next.ctx)))
  {
    OverlayWritesOver(node.ctx.summaries, round.results);
  }

  // ----- a lost peer

  /**
   A worker that loses its coordinator stands for the next term with its own vote
   when it owns the election; losing any other peer only marks it failed, and a
   peer that answers the reconnect is not lost.
   */
  lemma WorkerLossEffect(start: Start, me: NodeId, node: Node, peer: NodeId, restored: set<NodeId>, env: Env)
    requires node.ctx.role == Worker && node.campaign.None? && |start.participants| > 1
    ensures var ctx, next := node.ctx, LosePeer(start, me, node, peer, restored, env);
            var lost := ctx.(failed := ctx.failed + {peer});
            if peer in restored then next == node.(ctx := ctx.(failed := ctx.failed - {peer}))
            else
              next == node.(ctx := lost,
                            campaign := if peer == ctx.coordinator && OwnsElection(start, me, lost)
                            then Some(Campaign(SatAdd(ctx.term, 1), peer, ctx.term, ctx.coordinator, {me}))
                            else None)
  {
  }

  // ----- retirement

  /**
   A worker of an autonomous job ends its task after a message exactly when it has
   seen the final checkpoint committed, the last window, enough checkpoints and
   every shard final; nothing but that ends it.
   */
  lemma RetiresIff(start: Start, me: NodeId, node: Node, peer: NodeId, message: Message, env: Env)
    requires start.checkpointEvery > 0 && node.live && node.campaign.None? && node.ctx.role == Worker
    ensures var next := Step(start, me, node, Deliver(peer, message, env));
            !next.live <==>
              && start.autonomous && next.ctx.finalCommitted && next.ctx.window >= start.maxWindows
              && next.ctx.checkpointGeneration >= FinalCheckpointGeneration(start)
              && forall i :: 0 <= i < |start.shards| ==>
                   start.shards[i].shardId in next.ctx.summaries
                   && next.ctx.summaries[start.shards[i].shardId].generation >= start.maxWindows
  {
    var next := WorkerStep(start, me, node, peer, message, env);
    FinalIff(start, next.ctx.summaries);
  }

  lemma FinalIff(start: Start, summaries: map<ShardId, Summary>)
    ensures SummariesFinal(start, summaries) <==>
              forall i :: 0 <= i < |start.shards| ==>
                start.shards[i].shardId in summaries
                && summaries[start.shards[i].shardId].generation >= start.maxWindows
  {
    if SummariesFinal(start, summaries) {
      assert forall i :: 0 <= i < |start.shards| ==> start.shards[i] in start.shards;
    }
  }

  // ----- a restart

  /**
   A restart drops the campaign and changes nothing on disk. It revives the node
   exactly when it takes part, did not start the job, and its record is not that
   of a finished autonomous job whose manifest is still there.
   */
  lemma RestartEffect(start: Start, me: NodeId, node: Node, manifestOnDisk: bool)
    requires start.checkpointEvery > 0
    ensures var next := Step(start, me, node, Restart(manifestOnDisk));
            var finished := && start.autonomous && node.disk.Some? && node.disk.value.checkpoint.Some?
                            && manifestOnDisk && StateCoversFinal(start, node.disk.value);
            && next.campaign.None? && next.disk == node.disk
            && (next.live <==> me in start.participants && me != start.coordinator && !finished)
            && (!next.live ==> next.ctx == node.ctx)
            && (next.live ==> next.ctx.role == Worker && next.ctx.failed == {} && !next.ctx.finalCommitted)
            && (next.live && node.disk.Some? ==> RestoredFrom(start, node.disk.value, next.ctx))
            && (next.live && node.disk.None? ==> next.ctx == FreshContext(start, Worker))
  {
    if node.disk.Some? {
      OverlayWritesOver(Overlay(map[], start.shards), node.disk.value.shards);
      OverlayWritesOver(map[], start.shards);
    }
  }

  /** The record's coordinator, term, window and checkpoint, and its shards over those the job started with. */
  ghost predicate RestoredFrom(start: Start, state: TrainingState, ctx: Context) {
    && ctx.coordinator == state.coordinator && ctx.term == state.term && ctx.window == state.window
    && ctx.checkpointGeneration == state.checkpointGeneration && ctx.checkpoint == state.checkpoint
    && exists base :: WrittenOver(map[], start.shards, base) && WrittenOver(base, state.shards, ctx.summaries)
  }

  // ----- a lost aggregator

  predicate LedBy(ctx: Context, i: nat, lost: NodeId)
    requires i < |ctx.groups|
  {
    ctx.groups[i].aggregator == lost
  }

  /** The members of the first `n` groups led by `lost` that answered the reconnect. */
  ghost function Returned(ctx: Context, lost: NodeId, restored: set<NodeId>, n: nat): set<NodeId>
    requires n <= |ctx.groups|
  {
    set i, j | 0 <= i < n && LedBy(ctx, i, lost) && 0 <= j < |ctx.groups[i].members|
               && ctx.groups[i].members[j] != lost && ctx.groups[i].members[j] in restored :: ctx.groups[i].members[j]
  }

  /** Who counts as failed when the first `n` groups have been looked at. */
  ghost function FailedAfter(ctx: Context, lost: NodeId, restored: set<NodeId>, n: nat): set<NodeId>
    requires n <= |ctx.groups|
  {
    ctx.failed - Returned(ctx, lost, restored, n)
  }

  /** `kept` is `all` without the failed, in order. */
  ghost predicate WithoutFailed(kept: seq<NodeId>, all: seq<NodeId>, failed: set<NodeId>) {
    if all == [] then kept == []
    else if all[0] in failed then WithoutFailed(kept, all[1..], failed)
    else kept != [] && kept[0] == all[0] && WithoutFailed(kept[1..], all[1..], failed)
  }

  /** `a` is the first member that has not failed. */
  ghost predicate LeadsNext(a: NodeId, members: seq<NodeId>, failed: set<NodeId>) {
    exists j :: 0 <= j < |members| && members[j] == a && a !in failed && forall i :: 0 <= i < j ==> members[i] in failed
  }

  ghost predicate SomeLive(members: seq<NodeId>, failed: set<NodeId>) {
    exists j :: 0 <= j < |members| && members[j] !in failed
  }

  /** Group `i` after the loss: handed over to its first live member, or untouched if `lost` did not lead it. */
  ghost predicate HandedOver(ctx: Context, lost: NodeId, restored: set<NodeId>, i: nat, next: Group)
    requires i < |ctx.groups|
  {
    var group, failed := ctx.groups[i], FailedAfter(ctx, lost, restored, i + 1);
    if !LedBy(ctx, i, lost) then next == group
    else
      && next == group.(aggregator := next.aggregator, members := next.members)
      && LeadsNext(next.aggregator, group.members, failed)
      && WithoutFailed(next.members, group.members, failed)
  }

  lemma {:induction false} LiveMembersAre(members: seq<NodeId>, failed: set<NodeId>)
    ensures WithoutFailed(LiveMembers(members, failed), members, failed)
  {
    if members != [] {
      LiveMembersAre(members[1..], failed);
      var rest := LiveMembers(members[1..], failed);
      assert [] + rest == rest && ([members[0]] + rest)[1..] == rest;
    }
  }

  lemma {:induction false} FirstLiveIs(members: seq<NodeId>, failed: set<NodeId>)
    ensures FirstLive(members, failed).Some? <==> SomeLive(members, failed)
    ensures FirstLive(members, failed).Some? ==> LeadsNext(FirstLive(members, failed).value, members, failed)
  {
    if members != [] {
      FirstLiveIs(members[1..], failed);
      if members[0] !in failed {
        assert LeadsNext(members[0], members, failed);
      } else {
        LiveLater(members, failed);
      }
    }
  }

  lemma LiveLater(members: seq<NodeId>, failed: set<NodeId>)
    requires members != [] && members[0] in failed
    ensures SomeLive(members, failed) <==> SomeLive(members[1..], failed)
    ensures forall a :: LeadsNext(a, members[1..], failed) ==> LeadsNext(a, members, failed)
  {
    var rest := members[1..];
    if j :| 0 <= j < |members| && members[j] !in failed {
      assert rest[j - 1] !in failed;
    }
    if j :| 0 <= j < |rest| && rest[j] !in failed {
      assert members[j + 1] !in failed;
    }
    forall a | LeadsNext(a, rest, failed) ensures LeadsNext(a, members, failed) {
      var j :| 0 <= j < |rest| && rest[j] == a && a !in failed && forall i :: 0 <= i < j ==> rest[i] in failed;
      assert members[j + 1] == a;
      assert forall i :: 0 < i < j + 1 ==> members[i] == rest[i - 1];
    }
  }

  lemma ReturnedSnoc(ctx: Context, lost: NodeId, restored: set<NodeId>, n: nat)
    requires n < |ctx.groups|
    ensures Returned(ctx, lost, restored, n + 1)
            == Returned(ctx, lost, restored, n)
               + if LedBy(ctx, n, lost) then (set m | m in ctx.groups[n].members && m != lost && m in restored) else {}
  {
    var next, last := Returned(ctx, lost, restored, n + 1), ctx.groups[n].members;
    forall m | LedBy(ctx, n, lost) && m in last && m != lost && m in restored ensures m in next {
      var j :| 0 <= j < |last| && last[j] == m;
    }
  }

  /** Where the loop stands after `i` groups. */
  ghost predicate Underway(ctx: Context, lost: NodeId, restored: set<NodeId>, now: Context, i: nat) {
    && i <= |ctx.groups| == |now.groups|
    && now == ctx.(failed := FailedAfter(ctx, lost, restored, i), groups := now.groups)
    && (forall k :: 0 <= k < i ==> HandedOver(ctx, lost, restored, k, now.groups[k]))
    && (forall k :: i <= k < |ctx.groups| ==> now.groups[k] == ctx.groups[k])
  }

  ghost predicate CanHandOver(ctx: Context, lost: NodeId, restored: set<NodeId>, k: nat)
    requires k < |ctx.groups|
  {
    LedBy(ctx, k, lost) ==> SomeLive(ctx.groups[k].members, FailedAfter(ctx, lost, restored, k + 1))
  }

  lemma {:induction false} ReplacesFrom(ctx: Context, lost: NodeId, restored: set<NodeId>, now: Context, i: nat)
    requires Underway(ctx, lost, restored, now, i)
    ensures var (r, ok) := ReplaceAggregators(now, lost, restored, i);
            && (ok <==> forall k :: i <= k < |ctx.groups| ==> CanHandOver(ctx, lost, restored, k))
            && (ok ==> Underway(ctx, lost, restored, r, |ctx.groups|))
    decreases |ctx.groups| - i
  {
    if i < |ctx.groups| {
      ReturnedSnoc(ctx, lost, restored, i);
      if !LedBy(ctx, i, lost) {
        assert Underway(ctx, lost, restored, now, i + 1);
        ReplacesFrom(ctx, lost, restored, now, i + 1);
      } else {
        ReplacesOne(ctx, lost, restored, now, i);
      }
    }
  }

  lemma ReplacesOne(ctx: Context, lost: NodeId, restored: set<NodeId>, now: Context, i: nat)
    requires Underway(ctx, lost, restored, now, i) && i < |ctx.groups| && LedBy(ctx, i, lost)
    ensures var (r, ok) := ReplaceAggregators(now, lost, restored, i);
            && (ok <==> forall k :: i <= k < |ctx.groups| ==> CanHandOver(ctx, lost, restored, k))
            && (ok ==> Underway(ctx, lost, restored, r, |ctx.groups|))
    decreases |ctx.groups| - i, 0
  {
    var group, failed := ctx.groups[i], FailedAfter(ctx, lost, restored, i + 1);
    ReturnedSnoc(ctx, lost, restored, i);
    assert RetryFailed(now, group, lost, restored) == failed;
    FirstLiveIs(group.members, failed);
    LiveMembersAre(group.members, failed);
    var replacement := FirstLive(group.members, failed);
    if replacement.Some? {
      var retry := group.(aggregator := replacement.value, members := LiveMembers(group.members, failed));
      var next := now.(failed := failed, groups := now.groups[i := retry]);
      assert HandedOver(ctx, lost, restored, i, retry);
      assert Underway(ctx, lost, restored, next, i + 1);
      ReplacesFrom(ctx, lost, restored, next, i + 1);
    } else {
      assert !CanHandOver(ctx, lost, restored, i);
    }
  }

  /**
   Losing an aggregator. It can be replaced exactly when every group it led has a
   member that has not failed, once the members that answer a reconnect are taken
   back. Then each of those groups is led by its first such member and has exactly
   those members, in order; every other group is as before; and the lost node
   leads nothing.
   */
  ghost predicate AggregatorReplaced(ctx: Context, lost: NodeId, restored: set<NodeId>, next: Context, ok: bool) {
    && (ok <==> forall k :: 0 <= k < |ctx.groups| ==> CanHandOver(ctx, lost, restored, k))
    && (ok ==>
          && next == ctx.(failed := FailedAfter(ctx, lost, restored, |ctx.groups|), groups := next.groups)
          && |next.groups| == |ctx.groups|
          && (forall k :: 0 <= k < |ctx.groups| ==> HandedOver(ctx, lost, restored, k, next.groups[k]))
          && (lost in ctx.failed ==> forall k :: 0 <= k < |next.groups| ==> next.groups[k].aggregator != lost))
  }

  lemma LossEffect(ctx: Context, lost: NodeId, restored: set<NodeId>)
    ensures var (next, ok) := ReplaceAggregators(ctx, lost, restored, 0);
            AggregatorReplaced(ctx, lost, restored, next, ok)
  {
    assert Returned(ctx, lost, restored, 0) == {};
    ReplacesFrom(ctx, lost, restored, ctx, 0);
    var (next, ok) := ReplaceAggregators(ctx, lost, restored, 0);
    if ok && lost in ctx.failed {
      forall k | 0 <= k < |next.groups| ensures next.groups[k].aggregator != lost {
        assert HandedOver(ctx, lost, restored, k, next.groups[k]);
        assert lost in FailedAfter(ctx, lost, restored, k + 1);
      }
    }
  }
}

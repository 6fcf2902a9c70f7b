/**
 The training context as the source keeps it: an object whose handlers update
 its fields in place. Each method is tied to the step function of the same
 handler, about which the other training modules prove their theorems.
 */
module TrainingNode {
  import opened Machine
  import opened TrainingModel
  import opened TrainingSteps
  import opened TrainingCampaign
  import opened TrainingCheckpoints
  import opened TrainingEffects

  class TrainingNode {
    const start: Start
    const me: NodeId

    var role: Role
    var coordinator: NodeId
    var term: u64
    var window: u64
    var checkpointGeneration: u64
    var checkpoint: Option<ArtifactId>
    var finalCommitted: bool
    var failed: set<NodeId>
    var votedTerm: u64
    var votedCandidate: Option<NodeId>
    var summaries: map<ShardId, Summary>
    var groups: seq<Group>
    var groupProgress: map<GroupId, u64>
    var rejectedUpdates: u64
    var disk: Option<TrainingState>

    function Ctx(): Context
      reads this
    {
      Context(role, coordinator, term, window, checkpointGeneration, checkpoint, finalCommitted, failed,
              votedTerm, votedCandidate, summaries, groups, groupProgress, rejectedUpdates)
    }

    /** The node between two messages: no campaign is open and the task is running. */
    function Value(): Node
      reads this
    {
      Node(Ctx(), None, disk, true)
    }

    constructor (start: Start, me: NodeId, role: Role)
      ensures this.start == start && this.me == me
      ensures Value() == FreshNode(start, role)
    {
      this.start, this.me, this.role := start, me, role;
      coordinator, term, window := start.coordinator, start.term, 0;
      checkpointGeneration, checkpoint, finalCommitted := 0, None, false;
      failed, votedTerm, votedCandidate := {}, start.term, None;
      summaries := Overlay(map[], start.shards);
      groups := start.groups;
      groupProgress := map g | g in start.groups :: g.groupId := 0;
      rejectedUpdates := 0;
      disk := None;
    }

    method WriteState(diskOk: bool)
      modifies this`disk
      ensures Value() == Persist(start, old(Value()), diskOk)
    {
      if diskOk {
        disk := Some(Publish(start, Ctx()));
      }
    }

    method HandleState(peer: NodeId, state: TrainingState, diskOk: bool)
      modifies this
      ensures Value() == TrainingSteps.HandleState(start, old(Value()), peer, state, diskOk)
      ensures StateTaken(start, old(Value()), peer, state, diskOk, Value())
    {
      StateEffect(start, Value(), peer, state, diskOk);
      if StateRefused(start, Ctx(), peer, state) {
        return;
      }
      AdoptState(state);
      WriteState(diskOk);
    }

    method AdoptState(state: TrainingState)
      modifies this
      ensures Value() == old(Value()).(ctx := MergeState(old(Ctx()), state))
    {
      coordinator, term, window := state.coordinator, state.term, state.window;
      AdvanceShards(state.shards);
      if state.checkpointGeneration > checkpointGeneration {
        checkpointGeneration, checkpoint := state.checkpointGeneration, state.checkpoint;
      } else if checkpoint.None? && state.checkpointGeneration == checkpointGeneration {
        checkpoint := state.checkpoint;
      }
    }

    method AdvanceShards(entries: seq<ShardEntry>)
      modifies this`summaries
      ensures summaries == Advance(old(summaries), entries)
    {
      for i := 0 to |entries|
        invariant summaries == Advance(old(summaries), entries[..i])
      {
        var e := entries[i];
        assert entries[..i + 1][..i] == entries[..i];
        if e.shardId !in summaries || e.summary.generation > summaries[e.shardId].generation {
          summaries := summaries[e.shardId := e.summary];
        }
      }
      assert entries[..|entries|] == entries;
    }

    method OverlayShards(entries: seq<ShardEntry>)
      modifies this`summaries
      ensures summaries == Overlay(old(summaries), entries)
    {
      for i := 0 to |entries|
        invariant summaries == Overlay(old(summaries), entries[..i])
      {
        assert entries[..i + 1][..i] == entries[..i];
        summaries := summaries[entries[i].shardId := entries[i].summary];
      }
      assert entries[..|entries|] == entries;
    }

    /** Answers the candidate; nothing but the vote changes. */
    method HandleElection(peer: NodeId, request: ElectionRequest) returns (answer: Option<Vote>)
      modifies this`votedTerm, this`votedCandidate
      ensures Value() == old(Value()).(ctx := TrainingSteps.HandleElection(start, old(Ctx()), peer, request))
      ensures answer.None? <==> ElectionRefused(start, peer, request)
      ensures answer.Some? ==>
                answer.value == Vote(request.jobId, me, request.term, request.candidate, request.term,
                                     Grants(old(Ctx()), request))
      ensures Voted(start, old(Ctx()), peer, request,
                    if answer.None? then None else Some(answer.value.granted), Ctx())
    {
      if ElectionRefused(start, peer, request) {
        return None;
      }
      var granted;
      if request.term > term {
        votedTerm, votedCandidate := request.term, Some(request.candidate);
        granted := true;
      } else {
        granted := request.term == votedTerm && votedCandidate == Some(request.candidate);
      }
      answer := Some(Vote(request.jobId, me, request.term, request.candidate, request.term, granted));
    }

    method HandleCommit(peer: NodeId, commit: CheckpointCommit, env: Env)
      requires start.checkpointEvery > 0
      modifies this
      ensures Value() == TrainingSteps.HandleCommit(start, old(Value()), peer, commit, env)
      ensures CommitTaken(start, old(Value()), peer, commit, env, Value())
    {
      CommitEffect(start, Value(), peer, commit, env);
      if CommitRefused(start, Ctx(), peer, commit) || !env.checkpointOk {
        return;
      }
      AdoptCommit(commit);
      WriteState(env.diskOk);
    }

    method AdoptCommit(commit: CheckpointCommit)
      requires start.checkpointEvery > 0
      modifies this
      ensures Ctx() == ApplyCommit(start, old(Ctx()), commit) && disk == old(disk)
    {
      var m := commit.manifest;
      term, coordinator := commit.term, commit.coordinator;
      window := Max(window, m.modelGeneration);
      checkpointGeneration, checkpoint := m.checkpointGeneration, Some(m.hash);
      OverlayShards(m.shards);
      finalCommitted := CoversFinal(start, m.checkpointGeneration, m.shards);
    }

    method HandleWindow(peer: NodeId, w: WindowCommand, diskOk: bool)
      modifies this
      ensures Value() == TrainingSteps.HandleWindow(start, me, old(Value()), peer, w, diskOk)
      ensures WindowTaken(start, me, old(Value()), peer, w, diskOk, Value())
    {
      WindowEffect(start, me, Value(), peer, w, diskOk);
      if WindowRefused(start, me, Ctx(), peer, w) {
        rejectedUpdates := SatAdd(rejectedUpdates, 1);
        return;
      }
      if w.term > term {
        term, coordinator, failed := w.term, w.coordinator, {};
        WriteState(diskOk);
        if !diskOk {
          return;
        }
      }
      window := Max(window, w.window);
      groupProgress := groupProgress[w.groupId := w.window];
    }

    /** Catch up with a peer's state of the term that ended. */
    method RecoverFrom(campaign: Campaign, peer: NodeId, state: TrainingState)
      modifies this
      ensures disk == old(disk)
      ensures Ctx() == if IsRecovery(start, me, old(Ctx()), campaign, peer, state)
                       then Recover(old(Ctx()), state) else old(Ctx())
      ensures RecoveryTaken(start, me, old(Ctx()), campaign, peer, state, Ctx())
    {
      RecoveryEffect(start, me, Value().(campaign := Some(campaign)), peer, state, true);
      if IsRecovery(start, me, Ctx(), campaign, peer, state) {
        CatchUp(state);
      }
    }

    method CatchUp(state: TrainingState)
      modifies this
      ensures Value() == old(Value()).(ctx := Recover(old(Ctx()), state))
    {
      window := Max(window, state.window);
      checkpointGeneration := Max(checkpointGeneration, state.checkpointGeneration);
      checkpoint := state.checkpoint;
      AdvanceShards(state.shards);
    }

    /**
     One mailbox entry of an open campaign. The campaign it leaves open still
     has to be tallied; none is left when a higher candidacy ended it.
     */
    method ReadCampaignMail(campaign: Campaign, peer: NodeId, message: Message) returns (next: Option<Campaign>)
      modifies this
      ensures disk == old(disk)
      ensures forall ok :: |campaign.votes| < Quorum(|start.participants|) ==>
                CampaignStep(start, me, old(Value()).(campaign := Some(campaign)), peer, message, ok)
                == if next.None? then Value()
                   else Tally(start, me, Value().(campaign := Some(campaign)), next.value, ok)
      ensures message.State? ==>
                next == Some(campaign)
                && RecoveryTaken(start, me, old(Ctx()), campaign, peer, message.state, Ctx())
      ensures !Outbids(campaign.term, (peer, message)) ==>
                next == Some(Counted(start, me, campaign, (peer, message)))
      ensures !message.State? && !Outbids(campaign.term, (peer, message)) ==> Ctx() == old(Ctx())
    {
      next := Some(campaign);
      match message {
        case Ballot(v) =>
          if CountsVote(start, me, campaign, peer, v) {
            next := Some(campaign.(votes := campaign.votes + {peer}));
          }
        case Election(other) =>
          if other.term > campaign.term {
            var _ := HandleElection(peer, other);
            next := None;
          }
        case State(state) =>
          RecoverFrom(campaign, peer, state);
        case _ =>
      }
    }

    method BecomeCoordinator(campaign: Campaign, diskOk: bool)
      modifies this
      ensures Value() == Persist(start, old(Value()).(ctx := Elected(me, old(Ctx()), campaign)), diskOk)
    {
      role, term, coordinator := Coordinator, campaign.term, me;
      votedTerm, votedCandidate := campaign.term, Some(me);
      failed := {campaign.failedCoordinator};
      WriteState(diskOk);
    }

    /** `maybe_elect`: the mailbox is read until a quorum, a higher candidacy or the last timeout. */
    method MaybeElect(failedCoordinator: NodeId, mailbox: seq<Letter>, diskOk: bool)
      modifies this
      ensures Value() ==
              CampaignLoop(start, me, BeginCampaign(start, me, old(Value()), failedCoordinator, diskOk),
                           mailbox, diskOk)
      ensures old(role) == Worker ==>
                var ctx := old(Ctx()).(failed := old(failed) + {failedCoordinator});
                var c := Campaign(SatAdd(ctx.term, 1), failedCoordinator, ctx.term, ctx.coordinator, {me});
                (role == Coordinator <==> OwnsElection(start, me, ctx) && ReachesQuorum(start, me, c, mailbox))
    {
      if role == Worker {
        TakesOverIff(start, me, Value(), failedCoordinator, mailbox, diskOk);
      }
      failed := failed + {failedCoordinator};
      if !OwnsElection(start, me, Ctx()) {
        return;
      }
      var campaign := Campaign(SatAdd(term, 1), failedCoordinator, term, coordinator, {me});
      ghost var target :=
        CampaignLoop(start, me, BeginCampaign(start, me, old(Value()), failedCoordinator, diskOk), mailbox, diskOk);
      var i := 0;
      while i < |mailbox| && |campaign.votes| < Quorum(|start.participants|)
        invariant 0 <= i <= |mailbox|
        invariant target ==
                  CampaignLoop(start, me, Tally(start, me, Value().(campaign := Some(campaign)), campaign, diskOk),
                               mailbox[i..], diskOk)
      {
        assert mailbox[i..][1..] == mailbox[i + 1..];
        var next := ReadCampaignMail(campaign, mailbox[i].0, mailbox[i].1);
        if next.None? {
          return;
        }
        TallyIgnoresOpen(start, me, Value(), campaign, next.value, diskOk);
        campaign := next.value;
        i := i + 1;
      }
      if |campaign.votes| >= Quorum(|start.participants|) {
        BecomeCoordinator(campaign, diskOk);
      }
    }

    // ----- coordinator

    method CommitCheckpoint(env: Env) returns (ok: bool)
      requires start.checkpointEvery > 0
      modifies this
      ensures (Value(), ok) == TrainingSteps.CommitCheckpoint(start, old(Value()), env)
    {
      var manifest := MakeManifest(Ctx(), env.hash);
      if manifest.shards == [] || !env.checkpointOk {
        return false;
      }
      checkpointGeneration, checkpoint := manifest.checkpointGeneration, Some(manifest.hash);
      if CoversFinal(start, manifest.checkpointGeneration, manifest.shards) {
        if !env.quorumOk {
          return false;
        }
        finalCommitted := true;
      }
      WriteState(env.diskOk);
      ok := env.diskOk;
    }

    method AcceptAggregate(peer: NodeId, a: Aggregate, env: Env) returns (ok: bool)
      requires start.checkpointEvery > 0
      modifies this
      ensures (Value(), ok) == TrainingSteps.AcceptAggregate(start, old(Value()), peer, a, env)
    {
      var group := FindGroup(groups, a.groupId);
      if group.None? {
        return true;
      }
      if AggregateRefused(start, Ctx(), group.value, peer, a) {
        rejectedUpdates := SatAdd(rejectedUpdates, 1);
        return true;
      }
      window := Max(window, a.window);
      groupProgress := groupProgress[a.groupId := a.window];
      summaries := summaries[a.shardId := a.summary.(generation := a.generation)];
      WriteState(env.diskOk);
      if !env.diskOk {
        return false;
      }
      ok := true;
      if AllShardsStarted(Ctx()) && a.window % start.checkpointEvery == 0 {
        ok := CommitCheckpoint(env);
      }
    }

    method ReplaceAggregators(lost: NodeId, restored: set<NodeId>) returns (ok: bool)
      modifies this`failed, this`groups
      ensures (Ctx(), ok) == TrainingSteps.ReplaceAggregators(old(Ctx()), lost, restored, 0)
      ensures AggregatorReplaced(old(Ctx()), lost, restored, Ctx(), ok)
    {
      LossEffect(Ctx(), lost, restored);
      var i := 0;
      while i < |groups|
        invariant 0 <= i <= |groups|
        invariant TrainingSteps.ReplaceAggregators(Ctx(), lost, restored, i)
                  == TrainingSteps.ReplaceAggregators(old(Ctx()), lost, restored, 0)
        decreases |groups| - i
      {
        var group := groups[i];
        if group.aggregator == lost {
          failed := RetryFailed(Ctx(), group, lost, restored);
          var replacement := FirstLive(group.members, failed);
          if replacement.None? {
            return false;
          }
          groups := groups[i := group.(aggregator := replacement.value, members := LiveMembers(group.members, failed))];
        }
        i := i + 1;
      }
      ok := true;
    }

    /** A mailbox entry of the coordinator that is not an aggregate. */
    method HandleOther(mail: Mail, ghost completed: set<GroupId>, ghost manifests: seq<Manifest>)
      returns (outcome: Outcome)
      requires start.checkpointEvery > 0 && (mail.Message? ==> !mail.message.Result?)
      requires role == Coordinator
      modifies this
      ensures var (next, o) := DriveStep(start, Drive(old(Value()), completed, manifests), mail);
              && next == Drive(Value().(live := next.node.live), completed, manifests) && o == outcome
              && (outcome == Running ==> next.node.live && role == Coordinator)
    {
      outcome := Running;
      match mail {
        case Message(peer, message, env) =>
          if message.Election? && message.request.term > term {
            var _ := HandleElection(peer, message.request);
          } else if message.State? && message.state.term > term {
            var refused, before := StateRefused(start, Ctx(), peer, message.state), coordinator;
            HandleState(peer, message.state, env.diskOk);
            if !refused && !env.diskOk {
              outcome := Failed;
            } else if coordinator != before {
              role, outcome := Worker, Demoted;
            }
          }
        case Lost(peer, restored) =>
          if peer in restored {
            failed := failed - {peer};
          } else {
            failed := failed + {peer};
            var ok := ReplaceAggregators(peer, restored);
            if !ok {
              outcome := Failed;
            }
          }
      }
    }

    method HandleResult(mail: Mail, completed: set<GroupId>, manifests: seq<Manifest>)
      returns (outcome: Outcome, completed': set<GroupId>, manifests': seq<Manifest>)
      requires start.checkpointEvery > 0 && mail.Message? && mail.message.Result? && role == Coordinator
      modifies this
      ensures (Drive(Value(), completed', manifests'), outcome)
              == DriveStep(start, Drive(old(Value()), completed, manifests), mail)
      ensures role == Coordinator && outcome in {Running, Failed}
    {
      outcome, completed', manifests' := Running, completed, manifests;
      assert manifests + [] == manifests;
      var a := mail.message.aggregate;
      var accepted := Accepts(start, Ctx(), mail.peer, a);
      var recorded := RecordAggregate(Ctx(), a);
      AggregateKeepsRole(start, Value(), mail.peer, a, mail.env);
      var ok := AcceptAggregate(mail.peer, a, mail.env);
      if !ok {
        outcome := Failed;
      } else if accepted {
        if CommitDue(start, recorded, a) {
          manifests' := manifests + [MakeManifest(recorded, mail.env.hash)];
        }
        if a.window >= start.maxWindows {
          completed' := completed + {a.groupId};
        }
      }
    }

    /** Write the opening state and reset every group's progress to its shard's generation. */
    method OpenLoop() returns (completed: set<GroupId>)
      modifies this
      ensures Drive(Value(), completed, []) == Enter(start, old(Value()))
    {
      completed := AlreadyComplete(start, Ctx());
      var all := groups;
      for i := 0 to |all|
        invariant Ctx() == old(Ctx()).(groupProgress := ProgressFrom(old(Ctx()), all[..i]))
        invariant disk == old(disk)
      {
        assert all[..i + 1][..i] == all[..i];
        var generation := if all[i].shardId in summaries then summaries[all[i].shardId].generation else 0;
        groupProgress := groupProgress[all[i].groupId := generation];
      }
      assert all[..|all|] == all;
      WriteState(true);
    }

    /**
     The loop of `drive_autonomous_coordinator` over the mail that arrives before
     the deadline; it does not start when the opening write fails.
     */
    method DriveAutonomous(begun: bool, mailbox: seq<Mail>, last: Env)
      returns (outcome: Outcome, completed: set<GroupId>, manifests: seq<Manifest>)
      requires start.checkpointEvery > 0 && role == Coordinator
      modifies this
      ensures !begun ==> outcome == Failed && Value() == old(Value())
      ensures begun ==>
                var (end, o) := DriveLoop(start, Enter(start, old(Value())), mailbox, last);
                end == Drive(Value().(live := end.node.live), completed, manifests) && o == outcome
    {
      if !begun {
        return Failed, {}, [];
      }
      completed := OpenLoop();
      manifests := [];
      ghost var target := DriveLoop(start, Enter(start, old(Value())), mailbox, last);
      var i := 0;
      while |completed| < |start.groups|
        invariant 0 <= i <= |mailbox| && role == Coordinator
        invariant target == DriveLoop(start, Drive(Value(), completed, manifests), mailbox[i..], last)
        decreases |mailbox| - i
      {
        if i == |mailbox| {
          return Failed, completed, manifests;
        }
        var mail := mailbox[i];
        assert mailbox[i..][0] == mail && mailbox[i..][1..] == mailbox[i + 1..];
        if mail.Message? && mail.message.Result? {
          outcome, completed, manifests := HandleResult(mail, completed, manifests);
        } else {
          outcome := HandleOther(mail, completed, manifests);
        }
        if outcome != Running {
          return;
        }
        i := i + 1;
      }
      outcome := Finished;
      if SummariesFinal(start, summaries) && !finalCommitted {
        var manifest := MakeManifest(Ctx(), last.hash);
        var ok := CommitCheckpoint(last);
        if !ok {
          return Failed, completed, manifests;
        }
        manifests := manifests + [manifest];
      }
    }

    method CloseOneWindow(round: Round) returns (ok: bool)
      requires start.checkpointEvery > 0 && window < start.maxWindows
      modifies this
      ensures (Value(), ok) == CloseWindow(start, old(Value()), round)
    {
      window := window + 1;
      OverlayShards(round.results);
      WriteState(round.env.diskOk);
      if !round.env.diskOk || !round.stateAcked {
        return false;
      }
      if CheckpointWindow(start, window) {
        if !round.env.checkpointOk {
          return false;
        }
        checkpointGeneration := SatAdd(checkpointGeneration, 1);
        checkpoint := Some(round.env.hash);
        if !round.env.quorumOk {
          return false;
        }
        WriteState(round.commitWritten);
        return round.commitWritten;
      }
      ok := true;
    }

    /**
     The windowed mode of `drive_coordinator`: one entry of `rounds` per window.
     It stops early when a round is missing, a write fails or an acknowledgement
     quorum is not reached.
     */
    method DriveWindowed(begun: bool, rounds: seq<Round>) returns (finished: bool)
      requires start.checkpointEvery > 0
      modifies this
      ensures !begun ==> !finished && Value() == old(Value())
      ensures begun ==> (Value(), finished) == WindowLoop(start, Persist(start, old(Value()), true), rounds)
    {
      if !begun {
        return false;
      }
      WriteState(true);
      ghost var target := WindowLoop(start, Value(), rounds);
      var i := 0;
      while window < start.maxWindows
        invariant 0 <= i <= |rounds|
        invariant target == WindowLoop(start, Value(), rounds[i..])
        decreases |rounds| - i
      {
        if i == |rounds| {
          return false;
        }
        assert rounds[i..][0] == rounds[i] && rounds[i..][1..] == rounds[i + 1..];
        var ok := CloseOneWindow(rounds[i]);
        if !ok {
          return false;
        }
        i := i + 1;
      }
      finished := true;
    }
  }

  lemma AggregateKeepsRole(start: Start, node: Node, peer: NodeId, a: Aggregate, env: Env)
    requires start.checkpointEvery > 0
    ensures TrainingSteps.AcceptAggregate(start, node, peer, a, env).0.ctx.role == node.ctx.role
    ensures TrainingSteps.AcceptAggregate(start, node, peer, a, env).0.live == node.live
  {
  }

  lemma TallyIgnoresOpen(start: Start, me: NodeId, node: Node, open: Campaign, next: Campaign, ok: bool)
    ensures Tally(start, me, node.(campaign := Some(open)), next, ok)
            == Tally(start, me, node.(campaign := Some(next)), next, ok)
  {
  }
}

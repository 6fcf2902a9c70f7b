/**
 What every run of a training node keeps: the pair (term, window) and the
 checkpoint generation never move backwards, and term and window survive
 restarts exactly as far as the steps that moved them wrote them to disk.
 */
module TrainingProgress {
  import opened Machine
  import opened TrainingModel
  import opened TrainingSteps

  ghost predicate Forward(a: Context, b: Context) {
    && (a.term < b.term || (a.term == b.term && a.window <= b.window))
    && a.checkpointGeneration <= b.checkpointGeneration
  }

  function Run(start: Start, me: NodeId, node: Node, inputs: seq<Input>): Node
    requires start.checkpointEvery > 0
  {
    if inputs == [] then node
    else Step(start, me, Run(start, me, node, inputs[..|inputs| - 1]), inputs[|inputs| - 1])
  }

  ghost function ContextAt(start: Start, me: NodeId, node: Node, inputs: seq<Input>, k: nat): Context
    requires start.checkpointEvery > 0 && k <= |inputs|
  {
    Run(start, me, node, inputs[..k]).ctx
  }

  /** The contexts a run passes through. */
  ghost function Passed(start: Start, me: NodeId, node: Node, inputs: seq<Input>): (r: seq<Context>)
    requires start.checkpointEvery > 0
    ensures |r| == |inputs| + 1
    ensures forall k :: 0 <= k <= |inputs| ==> r[k] == ContextAt(start, me, node, inputs, k)
  {
    var n := |inputs| + 1;
    seq(n, k requires 0 <= k < n => ContextAt(start, me, node, inputs, k))
  }

  // ----- the handlers, one by one

  /** A campaign never outlives the term it was opened in. */
  ghost predicate CampaignFits(node: Node) {
    node.campaign.Some? ==>
      node.campaign.value.previousTerm == node.ctx.term && node.campaign.value.term == SatAdd(node.ctx.term, 1)
  }

  lemma CoordinatorForward(start: Start, node: Node, peer: NodeId, message: Message, env: Env)
    requires start.checkpointEvery > 0
    ensures Forward(node.ctx, CoordinatorStep(start, node, peer, message, env).ctx)
    ensures CoordinatorStep(start, node, peer, message, env).campaign == node.campaign
  {
  }

  lemma WorkerForward(start: Start, me: NodeId, node: Node, peer: NodeId, message: Message, env: Env)
    requires start.checkpointEvery > 0
    ensures Forward(node.ctx, WorkerStep(start, me, node, peer, message, env).ctx)
    ensures WorkerStep(start, me, node, peer, message, env).campaign == node.campaign
  {
  }

  lemma StepForward(start: Start, me: NodeId, node: Node, input: Input)
    requires start.checkpointEvery > 0 && CampaignFits(node)
    ensures CampaignFits(Step(start, me, node, input))
    ensures !input.Restart? ==> Forward(node.ctx, Step(start, me, node, input).ctx)
  {
    if node.live && input.Deliver? && node.campaign.None? {
      if node.ctx.role == Coordinator {
        CoordinatorForward(start, node, input.peer, input.message, input.env);
      } else {
        WorkerForward(start, me, node, input.peer, input.message, input.env);
      }
    }
    if input.PeerLost? {
      ReplaceKeeps(node.ctx.(failed := node.ctx.failed + {input.peer}), input.peer, input.restored, 0);
    }
  }

  lemma {:induction false} RunKeepsCampaign(start: Start, me: NodeId, node: Node, inputs: seq<Input>)
    requires start.checkpointEvery > 0 && CampaignFits(node)
    ensures CampaignFits(Run(start, me, node, inputs))
  {
    if inputs != [] {
      RunKeepsCampaign(start, me, node, inputs[..|inputs| - 1]);
      StepForward(start, me, Run(start, me, node, inputs[..|inputs| - 1]), inputs[|inputs| - 1]);
    }
  }

  /**
   Between two points of a run with no restart in between, (term, window) does
   not decrease lexicographically and neither does the checkpoint generation.
   */
  lemma {:induction false} RunNeverGoesBack(start: Start, me: NodeId, node: Node, inputs: seq<Input>, i: nat, j: nat)
    requires start.checkpointEvery > 0 && CampaignFits(node)
    requires i <= j <= |inputs|
    requires forall k :: i <= k < j ==> !inputs[k].Restart?
    ensures Forward(Run(start, me, node, inputs[..i]).ctx, Run(start, me, node, inputs[..j]).ctx)
    decreases j - i
  {
    if i < j {
      RunNeverGoesBack(start, me, node, inputs, i, j - 1);
      RunKeepsCampaign(start, me, node, inputs[..j - 1]);
      assert inputs[..j][..j - 1] == inputs[..j - 1];
      StepForward(start, me, Run(start, me, node, inputs[..j - 1]), inputs[j - 1]);
    }
  }

  // ----- restarts

  predicate DiskOk(input: Input) {
    match input
    case Deliver(_, _, env) => env.diskOk
    case WindowClosed(round) => round.env.diskOk
    case PeerLost(_, _, env) => env.diskOk
    case _ => true
  }

  /** A restart now would come back in the term the node is in. */
  ghost predicate TermDurable(start: Start, node: Node) {
    Restore(start, node.disk).term == node.ctx.term
  }

  /** The disk changes only to a record of the new term, and a new term is on disk iff the write succeeded. */
  ghost predicate DiskFollows(node: Node, next: Node, ok: bool) {
    && (next.disk != node.disk ==> next.disk.Some? && next.disk.value.term == next.ctx.term)
    && (next.ctx.term != node.ctx.term ==>
          if ok then next.disk.Some? && next.disk.value.term == next.ctx.term else next.disk == node.disk)
  }

  lemma CoordinatorDisk(start: Start, node: Node, peer: NodeId, message: Message, env: Env)
    requires start.checkpointEvery > 0
    ensures DiskFollows(node, CoordinatorStep(start, node, peer, message, env), env.diskOk)
  {
  }

  lemma WorkerDisk(start: Start, me: NodeId, node: Node, peer: NodeId, message: Message, env: Env)
    requires start.checkpointEvery > 0
    ensures DiskFollows(node, WorkerStep(start, me, node, peer, message, env), env.diskOk)
  {
  }

  lemma CampaignDisk(start: Start, me: NodeId, node: Node, peer: NodeId, message: Message, ok: bool)
    requires node.campaign.Some?
    ensures DiskFollows(node, CampaignStep(start, me, node, peer, message, ok), ok)
  {
  }

  lemma StepDisk(start: Start, me: NodeId, node: Node, input: Input)
    requires start.checkpointEvery > 0 && !input.Restart?
    ensures DiskFollows(node, Step(start, me, node, input), DiskOk(input))
  {
    if node.live && input.Deliver? {
      if node.campaign.Some? {
        CampaignDisk(start, me, node, input.peer, input.message, input.env.diskOk);
      } else if node.ctx.role == Coordinator {
        CoordinatorDisk(start, node, input.peer, input.message, input.env);
      } else {
        WorkerDisk(start, me, node, input.peer, input.message, input.env);
      }
    }
    if input.PeerLost? {
      ReplaceKeeps(node.ctx.(failed := node.ctx.failed + {input.peer}), input.peer, input.restored, 0);
    }
  }

  /** The step leaves the term alone, or moves it and writes it. */
  ghost predicate KeepsTerm(start: Start, me: NodeId, node: Node, input: Input)
    requires start.checkpointEvery > 0
  {
    Step(start, me, node, input).ctx.term == node.ctx.term || DiskOk(input)
  }

  /**
   The handlers change the term in memory and write afterwards, so a step keeps
   the term durable exactly when it left the term alone or its write succeeded.
   */
  lemma StepDurableIff(start: Start, me: NodeId, node: Node, input: Input)
    requires start.checkpointEvery > 0 && TermDurable(start, node)
    ensures TermDurable(start, Step(start, me, node, input)) <==> KeepsTerm(start, me, node, input)
  {
    if !input.Restart? {
      StepDisk(start, me, node, input);
    }
  }

  lemma RestartKeepsTerm(start: Start, me: NodeId, node: Node, input: Input)
    requires start.checkpointEvery > 0 && TermDurable(start, node) && CampaignFits(node)
    ensures node.ctx.term <= Step(start, me, node, input).ctx.term
  {
    if !input.Restart? {
      StepForward(start, me, node, input);
    }
  }

  ghost predicate TermWritesSucceed(start: Start, me: NodeId, node: Node, inputs: seq<Input>)
    requires start.checkpointEvery > 0
  {
    forall k :: 0 <= k < |inputs| ==> KeepsTerm(start, me, Run(start, me, node, inputs[..k]), inputs[k])
  }

  lemma {:induction false} RunStaysDurable(start: Start, me: NodeId, node: Node, inputs: seq<Input>, j: nat)
    requires start.checkpointEvery > 0 && CampaignFits(node) && TermDurable(start, node)
    requires j <= |inputs| && TermWritesSucceed(start, me, node, inputs)
    ensures TermDurable(start, Run(start, me, node, inputs[..j]))
  {
    if j > 0 {
      RunStaysDurable(start, me, node, inputs, j - 1);
      RunKeepsCampaign(start, me, node, inputs[..j - 1]);
      assert inputs[..j][..j - 1] == inputs[..j - 1];
      StepDurableIff(start, me, Run(start, me, node, inputs[..j - 1]), inputs[j - 1]);
    }
  }

  /** Over a whole run the term is durable throughout exactly when every step that moves it writes it. */
  lemma RunTermDurableIff(start: Start, me: NodeId, node: Node, inputs: seq<Input>)
    requires start.checkpointEvery > 0 && CampaignFits(node) && TermDurable(start, node)
    ensures (forall j :: 0 <= j <= |inputs| ==> TermDurable(start, Run(start, me, node, inputs[..j])))
            <==> TermWritesSucceed(start, me, node, inputs)
  {
    if TermWritesSucceed(start, me, node, inputs) {
      forall j | 0 <= j <= |inputs| ensures TermDurable(start, Run(start, me, node, inputs[..j])) {
        RunStaysDurable(start, me, node, inputs, j);
      }
    }
    if forall j :: 0 <= j <= |inputs| ==> TermDurable(start, Run(start, me, node, inputs[..j])) {
      forall k | 0 <= k < |inputs| ensures KeepsTerm(start, me, Run(start, me, node, inputs[..k]), inputs[k]) {
        DurableMeansWritten(start, me, node, inputs, k);
      }
    }
  }

  lemma DurableMeansWritten(start: Start, me: NodeId, node: Node, inputs: seq<Input>, k: nat)
    requires start.checkpointEvery > 0 && k < |inputs|
    requires TermDurable(start, Run(start, me, node, inputs[..k]))
    requires TermDurable(start, Run(start, me, node, inputs[..k + 1]))
    ensures KeepsTerm(start, me, Run(start, me, node, inputs[..k]), inputs[k])
  {
    assert inputs[..k + 1][..k] == inputs[..k];
    StepDurableIff(start, me, Run(start, me, node, inputs[..k]), inputs[k]);
  }

  /** With those writes succeeding, the term of a node never decreases, crashes and restarts included. */
  lemma TermSurvivesRestarts(start: Start, me: NodeId, node: Node, inputs: seq<Input>, i: nat, j: nat)
    requires start.checkpointEvery > 0 && CampaignFits(node) && TermDurable(start, node)
    requires i <= j <= |inputs| && TermWritesSucceed(start, me, node, inputs)
    ensures Run(start, me, node, inputs[..i]).ctx.term <= Run(start, me, node, inputs[..j]).ctx.term
  {
    var passed := Passed(start, me, node, inputs);
    forall k | 0 <= k < |inputs| ensures passed[k].term <= passed[k + 1].term {
      TermStep(start, me, node, inputs, k);
    }
    TermsClimb(passed, i, j);
  }

  lemma TermStep(start: Start, me: NodeId, node: Node, inputs: seq<Input>, k: nat)
    requires start.checkpointEvery > 0 && CampaignFits(node) && TermDurable(start, node)
    requires k < |inputs| && TermWritesSucceed(start, me, node, inputs)
    ensures ContextAt(start, me, node, inputs, k).term <= ContextAt(start, me, node, inputs, k + 1).term
  {
    RunKeepsCampaign(start, me, node, inputs[..k]);
    RunStaysDurable(start, me, node, inputs, k);
    assert inputs[..k + 1][..k] == inputs[..k];
    RestartKeepsTerm(start, me, Run(start, me, node, inputs[..k]), inputs[k]);
  }

  lemma {:induction false} TermsClimb(passed: seq<Context>, i: nat, j: nat)
    requires i <= j < |passed| && forall k :: 0 <= k < |passed| - 1 ==> passed[k].term <= passed[k + 1].term
    ensures passed[i].term <= passed[j].term
  {
    if i < j {
      TermsClimb(passed, i, j - 1);
      assert passed[j - 1].term <= passed[j - 1 + 1].term;
    }
  }

  /** The side conditions hold of a node that has just accepted the job. */
  lemma FreshNodeIsDurable(start: Start, role: Role)
    ensures CampaignFits(FreshNode(start, role)) && TermDurable(start, FreshNode(start, role))
    ensures WindowDurable(start, FreshNode(start, role))
  {
  }

  /** And it does go back when that write fails: a worker that adopts a later term and restarts forgets it. */
  lemma TermRegressesAfterFailedWrite(start: Start, me: NodeId, peer: NodeId, state: TrainingState, env: Env)
    requires start.checkpointEvery > 0 && me in start.participants && me != start.coordinator
    requires !StateRefused(start, FreshContext(start, Worker), peer, state) && state.term > start.term
    requires !env.diskOk
    ensures var moved := Step(start, me, FreshNode(start, Worker), Deliver(peer, State(state), env));
            && moved.ctx.term == state.term
            && Step(start, me, moved, Restart(false)).ctx.term == start.term
  {
  }

  // ----- the window across restarts

  /** A restart now would come back at the window the node is at. */
  ghost predicate WindowDurable(start: Start, node: Node) {
    Restore(start, node.disk).window == node.ctx.window
  }

  /** The steps that write the record after they have moved the window. */
  predicate WritesWindow(node: Node, input: Input) {
    match input
    case WindowClosed(_) => true
    case Deliver(_, message, _) => node.campaign.None? && (message.State? || message.Commit? || message.Result?)
    case _ => false
  }

  /** The disk changes only to a record of the old or the new window, and a moved window is on it iff it was written. */
  ghost predicate WindowFollows(node: Node, next: Node, written: bool) {
    if next.ctx.window == node.ctx.window
    then next.disk != node.disk ==> next.disk.Some? && next.disk.value.window == next.ctx.window
    else if written then next.disk.Some? && next.disk.value.window == next.ctx.window
    else next.disk != node.disk ==> next.disk.Some? && next.disk.value.window == node.ctx.window
  }

  lemma CoordinatorWindow(start: Start, node: Node, peer: NodeId, message: Message, env: Env)
    requires start.checkpointEvery > 0
    ensures WindowFollows(node, CoordinatorStep(start, node, peer, message, env),
                          env.diskOk && (message.State? || message.Commit? || message.Result?))
  {
  }

  lemma WorkerWindow(start: Start, me: NodeId, node: Node, peer: NodeId, message: Message, env: Env)
    requires start.checkpointEvery > 0
    ensures WindowFollows(node, WorkerStep(start, me, node, peer, message, env),
                          env.diskOk && (message.State? || message.Commit? || message.Result?))
  {
  }

  lemma CampaignWindow(start: Start, me: NodeId, node: Node, peer: NodeId, message: Message, ok: bool)
    requires node.campaign.Some?
    ensures WindowFollows(node, CampaignStep(start, me, node, peer, message, ok), false)
  {
  }

  lemma StepWindow(start: Start, me: NodeId, node: Node, input: Input)
    requires start.checkpointEvery > 0 && !input.Restart?
    ensures WindowFollows(node, Step(start, me, node, input), DiskOk(input) && WritesWindow(node, input))
  {
    if node.live && input.Deliver? {
      if node.campaign.Some? {
        CampaignWindow(start, me, node, input.peer, input.message, input.env.diskOk);
      } else if node.ctx.role == Coordinator {
        CoordinatorWindow(start, node, input.peer, input.message, input.env);
      } else {
        WorkerWindow(start, me, node, input.peer, input.message, input.env);
      }
    }
    if input.PeerLost? {
      ReplaceKeeps(node.ctx.(failed := node.ctx.failed + {input.peer}), input.peer, input.restored, 0);
    }
  }

  /** The step leaves the window alone, or moves it and writes it. */
  ghost predicate KeepsWindow(start: Start, me: NodeId, node: Node, input: Input)
    requires start.checkpointEvery > 0
  {
    || Step(start, me, node, input).ctx.window == node.ctx.window
    || (DiskOk(input) && WritesWindow(node, input))
  }

  /**
   A step keeps the window durable exactly when it leaves it alone, or its write
   succeeds and it is the close of a window or, outside a campaign, a state, a
   commit or a result. Window commands, recovery metadata and finished windows of
   a group move it without writing.
   */
  lemma StepWindowDurableIff(start: Start, me: NodeId, node: Node, input: Input)
    requires start.checkpointEvery > 0 && WindowDurable(start, node)
    ensures WindowDurable(start, Step(start, me, node, input)) <==> KeepsWindow(start, me, node, input)
  {
    if !input.Restart? {
      StepWindow(start, me, node, input);
    }
  }

  ghost predicate WindowWritesSucceed(start: Start, me: NodeId, node: Node, inputs: seq<Input>)
    requires start.checkpointEvery > 0
  {
    forall k :: 0 <= k < |inputs| ==> KeepsWindow(start, me, Run(start, me, node, inputs[..k]), inputs[k])
  }

  lemma {:induction false} RunKeepsWindow(start: Start, me: NodeId, node: Node, inputs: seq<Input>, j: nat)
    requires start.checkpointEvery > 0 && WindowDurable(start, node)
    requires j <= |inputs| && WindowWritesSucceed(start, me, node, inputs)
    ensures WindowDurable(start, Run(start, me, node, inputs[..j]))
  {
    if j > 0 {
      RunKeepsWindow(start, me, node, inputs, j - 1);
      assert inputs[..j][..j - 1] == inputs[..j - 1];
      StepWindowDurableIff(start, me, Run(start, me, node, inputs[..j - 1]), inputs[j - 1]);
    }
  }

  /** Over a whole run the window is durable throughout exactly when every step that moves it writes it. */
  lemma RunWindowDurableIff(start: Start, me: NodeId, node: Node, inputs: seq<Input>)
    requires start.checkpointEvery > 0 && WindowDurable(start, node)
    ensures (forall j :: 0 <= j <= |inputs| ==> WindowDurable(start, Run(start, me, node, inputs[..j])))
            <==> WindowWritesSucceed(start, me, node, inputs)
  {
    if WindowWritesSucceed(start, me, node, inputs) {
      forall j | 0 <= j <= |inputs| ensures WindowDurable(start, Run(start, me, node, inputs[..j])) {
        RunKeepsWindow(start, me, node, inputs, j);
      }
    }
    if forall j :: 0 <= j <= |inputs| ==> WindowDurable(start, Run(start, me, node, inputs[..j])) {
      forall k | 0 <= k < |inputs| ensures KeepsWindow(start, me, Run(start, me, node, inputs[..k]), inputs[k]) {
        assert inputs[..k + 1][..k] == inputs[..k];
        StepWindowDurableIff(start, me, Run(start, me, node, inputs[..k]), inputs[k]);
      }
    }
  }

  ghost predicate NotBehind(a: Context, b: Context) {
    a.term < b.term || (a.term == b.term && a.window <= b.window)
  }

  /** With the writes of both succeeding, (term, window) never decreases, crashes and restarts included. */
  lemma WindowSurvivesRestarts(
    start: Start, me: NodeId, node: Node, inputs: seq<Input>, i: nat, j: nat)
    requires start.checkpointEvery > 0 && CampaignFits(node) && TermDurable(start, node) && WindowDurable(start, node)
    requires TermWritesSucceed(start, me, node, inputs) && WindowWritesSucceed(start, me, node, inputs)
    requires i <= j <= |inputs|
    ensures NotBehind(Run(start, me, node, inputs[..i]).ctx, Run(start, me, node, inputs[..j]).ctx)
  {
    var passed := Passed(start, me, node, inputs);
    forall k | 0 <= k < |inputs| ensures NotBehind(passed[k], passed[k + 1]) {
      PassedStep(start, me, node, inputs, k);
    }
    Climbs(passed, i, j);
  }

  lemma PassedStep(start: Start, me: NodeId, node: Node, inputs: seq<Input>, k: nat)
    requires start.checkpointEvery > 0 && CampaignFits(node) && TermDurable(start, node) && WindowDurable(start, node)
    requires TermWritesSucceed(start, me, node, inputs) && WindowWritesSucceed(start, me, node, inputs)
    requires k < |inputs|
    ensures NotBehind(ContextAt(start, me, node, inputs, k), ContextAt(start, me, node, inputs, k + 1))
  {
    RunStepNotBehind(start, me, node, inputs, k);
  }

  lemma {:induction false} Climbs(passed: seq<Context>, i: nat, j: nat)
    requires i <= j < |passed| && forall k :: 0 <= k < |passed| - 1 ==> NotBehind(passed[k], passed[k + 1])
    ensures NotBehind(passed[i], passed[j])
  {
    if i < j {
      Climbs(passed, i, j - 1);
      assert NotBehind(passed[j - 1], passed[j - 1 + 1]);
    }
  }

  lemma RunStepNotBehind(start: Start, me: NodeId, node: Node, inputs: seq<Input>, k: nat)
    requires start.checkpointEvery > 0 && CampaignFits(node) && TermDurable(start, node) && WindowDurable(start, node)
    requires TermWritesSucceed(start, me, node, inputs) && WindowWritesSucceed(start, me, node, inputs)
    requires k < |inputs|
    ensures NotBehind(Run(start, me, node, inputs[..k]).ctx, Run(start, me, node, inputs[..k + 1]).ctx)
  {
    RunKeepsCampaign(start, me, node, inputs[..k]);
    RunStaysDurable(start, me, node, inputs, k);
    RunKeepsWindow(start, me, node, inputs, k);
    assert inputs[..k + 1][..k] == inputs[..k];
    DurableStepNotBehind(start, me, Run(start, me, node, inputs[..k]), inputs[k]);
  }

  lemma DurableStepNotBehind(start: Start, me: NodeId, node: Node, input: Input)
    requires start.checkpointEvery > 0 && CampaignFits(node) && TermDurable(start, node) && WindowDurable(start, node)
    ensures NotBehind(node.ctx, Step(start, me, node, input).ctx)
  {
    if !input.Restart? {
      StepForward(start, me, node, input);
    }
  }

  /** And it does go back where a worker has moved it without writing: a window command followed by a restart. */
  lemma WindowRegressesAcrossRestart(start: Start, me: NodeId, node: Node, peer: NodeId, w: WindowCommand, env: Env)
    requires start.checkpointEvery > 0 && node.live && node.campaign.None?
    requires me in start.participants && me != start.coordinator
    requires !WindowRefused(start, me, node.ctx, peer, w) && w.term == node.ctx.term
    requires w.window > Restore(start, node.disk).window
    ensures var moved := Step(start, me, node, Deliver(peer, Window(w), env));
            Step(start, me, moved, Restart(false)).ctx.window < moved.ctx.window
  {
  }

  // ----- what a restart reads back

  lemma {:induction false} OverlayPrepend(base: map<ShardId, Summary>, e: ShardEntry, rest: seq<ShardEntry>)
    ensures Overlay(base, [e] + rest) == Overlay(base[e.shardId := e.summary], rest)
  {
    var all := [e] + rest;
    if rest == [] {
      assert all[..|all| - 1] == [];
    } else {
      OverlayPrepend(base, e, rest[..|rest| - 1]);
      assert all[..|all| - 1] == [e] + rest[..|rest| - 1];
    }
  }

  lemma PeelKey(base: map<ShardId, Summary>, m: map<ShardId, Summary>, k: ShardId)
    requires k in m
    ensures base[k := m[k]] + (m - {k}) == base + m
    ensures |m - {k}| < |m|
  {
    assert (m - {k}).Keys == m.Keys - {k};
  }

  lemma {:induction false} OverlayListing(base: map<ShardId, Summary>, m: map<ShardId, Summary>)
    ensures Overlay(base, Listing(m)) == base + m
    decreases |m|
  {
    if m != map[] {
      var k := Least(m.Keys);
      PeelKey(base, m, k);
      var rest := Listing(m - {k});
      assert Listing(m) == [ShardEntry(k, m[k])] + rest;
      OverlayListing(base[k := m[k]], m - {k});
      OverlayPrepend(base, ShardEntry(k, m[k]), rest);
    } else {
      assert Listing(m) == [];
      assert base + m == base;
    }
  }

  /** A restart after a successful write recovers every persisted field, summaries included. */
  lemma RestoreInvertsPersist(start: Start, node: Node)
    requires FreshContext(start, Worker).summaries.Keys <= node.ctx.summaries.Keys
    ensures var back := Restore(start, Persist(start, node, true).disk);
            && back.coordinator == node.ctx.coordinator
            && back.term == node.ctx.term
            && back.window == node.ctx.window
            && back.checkpointGeneration == node.ctx.checkpointGeneration
            && back.checkpoint == node.ctx.checkpoint
            && back.summaries == node.ctx.summaries
  {
    var base := FreshContext(start, Worker).summaries;
    OverlayListing(base, node.ctx.summaries);
    assert base + node.ctx.summaries == node.ctx.summaries;
  }

  lemma {:induction false} MergesKeepKeys(base: map<ShardId, Summary>, entries: seq<ShardEntry>)
    ensures base.Keys <= Overlay(base, entries).Keys
    ensures base.Keys <= Advance(base, entries).Keys
  {
    if entries != [] {
      MergesKeepKeys(base, entries[..|entries| - 1]);
    }
  }

  /** The side condition of the round trip holds in every run. */
  lemma {:induction false} RunKeepsShards(start: Start, me: NodeId, role: Role, inputs: seq<Input>)
    requires start.checkpointEvery > 0
    ensures FreshContext(start, Worker).summaries.Keys
            <= Run(start, me, FreshNode(start, role), inputs).ctx.summaries.Keys
  {
    if inputs != [] {
      var before := Run(start, me, FreshNode(start, role), inputs[..|inputs| - 1]);
      RunKeepsShards(start, me, role, inputs[..|inputs| - 1]);
      StepKeepsShards(start, me, before, inputs[|inputs| - 1]);
    }
  }

  lemma WorkerKeepsShards(start: Start, me: NodeId, node: Node, peer: NodeId, message: Message, env: Env)
    requires start.checkpointEvery > 0
    ensures node.ctx.summaries.Keys <= WorkerStep(start, me, node, peer, message, env).ctx.summaries.Keys
  {
    match message {
      case State(state) => MergesKeepKeys(node.ctx.summaries, state.shards);
      case Commit(commit) => MergesKeepKeys(node.ctx.summaries, commit.manifest.shards);
      case _ =>
    }
  }

  lemma CampaignKeepsShards(start: Start, me: NodeId, node: Node, peer: NodeId, message: Message, ok: bool)
    requires node.campaign.Some?
    ensures node.ctx.summaries.Keys <= CampaignStep(start, me, node, peer, message, ok).ctx.summaries.Keys
  {
    if message.State? {
      MergesKeepKeys(node.ctx.summaries, message.state.shards);
    }
  }

  lemma CoordinatorKeepsShards(start: Start, node: Node, peer: NodeId, message: Message, env: Env)
    requires start.checkpointEvery > 0
    ensures node.ctx.summaries.Keys <= CoordinatorStep(start, node, peer, message, env).ctx.summaries.Keys
  {
    if message.State? {
      MergesKeepKeys(node.ctx.summaries, message.state.shards);
    }
  }

  lemma DeliverKeepsShards(start: Start, me: NodeId, node: Node, peer: NodeId, message: Message, env: Env)
    requires start.checkpointEvery > 0
    ensures node.ctx.summaries.Keys <= Step(start, me, node, Deliver(peer, message, env)).ctx.summaries.Keys
  {
    if message.State? {
      MergesKeepKeys(node.ctx.summaries, message.state.shards);
    }
    if node.campaign.Some? {
      CampaignKeepsShards(start, me, node, peer, message, env.diskOk);
    } else if node.ctx.role == Coordinator {
      CoordinatorKeepsShards(start, node, peer, message, env);
    } else {
      WorkerKeepsShards(start, me, node, peer, message, env);
    }
  }

  lemma StepKeepsShards(start: Start, me: NodeId, node: Node, input: Input)
    requires start.checkpointEvery > 0
    ensures var next := Step(start, me, node, input).ctx.summaries.Keys;
            node.ctx.summaries.Keys <= next || (input.Restart? && FreshContext(start, Worker).summaries.Keys <= next)
  {
    match input {
      case Restart(_) =>
        if node.disk.Some? {
          MergesKeepKeys(FreshContext(start, Worker).summaries, node.disk.value.shards);
        }
      case Deliver(peer, message, env) => DeliverKeepsShards(start, me, node, peer, message, env);
      case WindowClosed(round) => MergesKeepKeys(node.ctx.summaries, round.results);
      case PeerLost(peer, restored, _) =>
        ReplaceKeeps(node.ctx.(failed := node.ctx.failed + {peer}), peer, restored, 0);
      case _ =>
    }
  }
}

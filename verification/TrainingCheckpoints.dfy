/**
 The autonomous coordinator loop (`drive_autonomous_coordinator`): groups report
 finished windows independently, in any interleaving, and the coordinator
 decides when to commit a checkpoint and when the job is over.
 */
module TrainingCheckpoints {
  import opened Machine
  import opened TrainingModel
  import opened TrainingSteps

  /** One mailbox entry, with what the outside decided while it was handled. */
  datatype Mail =
    | Message(peer: NodeId, message: Message, env: Env)
    | Lost(peer: NodeId, restored: set<NodeId>)

  /** The loop's state; `manifests` are the checkpoints written so far. */
  datatype Drive = Drive(node: Node, completed: set<GroupId>, manifests: seq<Manifest>)

  datatype Outcome = Finished | Demoted | Failed | Running

  predicate Accepts(start: Start, ctx: Context, peer: NodeId, a: Aggregate) {
    var group := FindGroup(ctx.groups, a.groupId);
    group.Some? && !AggregateRefused(start, ctx, group.value, peer, a)
  }

  predicate CommitDue(start: Start, recorded: Context, a: Aggregate)
    requires start.checkpointEvery > 0
  {
    AllShardsStarted(recorded) && a.window % start.checkpointEvery == 0
  }

  function AggregateStep(start: Start, d: Drive, peer: NodeId, a: Aggregate, env: Env): (Drive, Outcome)
    requires start.checkpointEvery > 0
  {
    var (next, ok) := AcceptAggregate(start, d.node, peer, a, env);
    if !ok then (d.(node := next), Failed)
    else if !Accepts(start, d.node.ctx, peer, a) then (d.(node := next), Running)
    else
      var recorded := RecordAggregate(d.node.ctx, a);
      var written := if CommitDue(start, recorded, a) then [MakeManifest(recorded, env.hash)] else [];
      var completed := if a.window >= start.maxWindows then d.completed + {a.groupId} else d.completed;
      (Drive(next, completed, d.manifests + written), Running)
  }

  function DriveStep(start: Start, d: Drive, mail: Mail): (Drive, Outcome)
    requires start.checkpointEvery > 0
  {
    match mail
    case Message(peer, message, env) =>
      if message.Result? then AggregateStep(start, d, peer, message.aggregate, env)
      else
        var next := CoordinatorStep(start, d.node, peer, message, env);
        (d.(node := next), if !next.live then Failed else if next.ctx.role == Worker then Demoted else Running)
    case Lost(peer, restored) =>
      if peer in restored then (d.(node := d.node.(ctx := d.node.ctx.(failed := d.node.ctx.failed - {peer}))), Running)
      else
        var (ctx, ok) :=
          ReplaceAggregators(d.node.ctx.(failed := d.node.ctx.failed + {peer}), peer, restored, 0);
        (d.(node := d.node.(ctx := ctx)), if ok then Running else Failed)
  }

  /** After the loop: a complete model without a final manifest gets one before success is reported. */
  function Finish(start: Start, d: Drive, env: Env): (Drive, Outcome)
    requires start.checkpointEvery > 0
  {
    if SummariesFinal(start, d.node.ctx.summaries) && !d.node.ctx.finalCommitted then
      var (next, ok) := CommitCheckpoint(start, d.node, env);
      if ok then (Drive(next, d.completed, d.manifests + [MakeManifest(d.node.ctx, env.hash)]), Finished)
      else (d.(node := next), Failed)
    else (d, Finished)
  }

  function DriveLoop(start: Start, d: Drive, mailbox: seq<Mail>, last: Env): (Drive, Outcome)
    requires start.checkpointEvery > 0
    decreases |mailbox|
  {
    if |d.completed| >= |start.groups| then Finish(start, d, last)
    else if mailbox == [] then (d, Failed)
    else
      var (next, outcome) := DriveStep(start, d, mailbox[0]);
      if outcome == Running then DriveLoop(start, next, mailbox[1..], last) else (next, outcome)
  }

  /** Groups whose shard is already final when the loop starts. */
  function AlreadyComplete(start: Start, ctx: Context): set<GroupId> {
    set g | g in start.groups && g.shardId in ctx.summaries && ctx.summaries[g.shardId].generation >= start.maxWindows
      :: g.groupId
  }

  /** Every group's progress is reset to its shard's generation. */
  function ProgressFrom(ctx: Context, groups: seq<Group>): map<GroupId, u64> {
    if groups == [] then ctx.groupProgress
    else
      var last := groups[|groups| - 1];
      ProgressFrom(ctx, groups[..|groups| - 1])
        [last.groupId := if last.shardId in ctx.summaries then ctx.summaries[last.shardId].generation else 0]
  }

  /** Where the loop starts, once the opening write has succeeded. */
  function Enter(start: Start, node: Node): Drive {
    var ctx := node.ctx.(groupProgress := ProgressFrom(node.ctx, node.ctx.groups));
    Drive(Persist(start, node.(ctx := ctx), true), AlreadyComplete(start, node.ctx), [])
  }

  // ----- hypotheses

  function GroupShards(groups: seq<Group>): set<ShardId> { set g | g in groups :: g.shardId }

  function EntryShards(entries: seq<ShardEntry>): set<ShardId> { set e | e in entries :: e.shardId }

  /** Groups and shards are in one-to-one correspondence, as `make_groups` builds them. */
  ghost predicate GroupsFit(start: Start) {
    && start.groups != []
    && (forall i, j :: 0 <= i < j < |start.groups| ==>
          start.groups[i].groupId != start.groups[j].groupId && start.groups[i].shardId != start.groups[j].shardId)
    && EntryShards(start.shards) == GroupShards(start.groups)
  }

  predicate AcceptsMail(start: Start, ctx: Context, mail: Mail) {
    mail.Message? && mail.message.Result? && Accepts(start, ctx, mail.peer, mail.message.aggregate)
  }

  /**
   What is assumed of accepted aggregates: nothing, that their generation is
   their window, or also that none before them is missing.
   */
  datatype Order = Arbitrary | Aligned | Gapless

  ghost predicate Fits(order: Order, ctx: Context, a: Aggregate) {
    match order
    case Arbitrary => true
    case Aligned =>
      a.generation == a.window && a.shardId in ctx.summaries && a.window > ctx.summaries[a.shardId].generation
    case Gapless =>
      a.generation == a.window && a.shardId in ctx.summaries && a.window == ctx.summaries[a.shardId].generation + 1
  }

  /** Nobody receives from itself, and an accepted aggregate follows the order. */
  ghost predicate MailFits(start: Start, ctx: Context, mail: Mail, order: Order) {
    && (mail.Message? ==> mail.peer != ctx.coordinator)
    && (AcceptsMail(start, ctx, mail) ==> Fits(order, ctx, mail.message.aggregate))
  }

  /** The same of every entry the loop reads. */
  ghost predicate Arrives(start: Start, d: Drive, mailbox: seq<Mail>, order: Order)
    requires start.checkpointEvery > 0
    decreases |mailbox|
  {
    |d.completed| >= |start.groups| || mailbox == []
    || var mail := mailbox[0];
       && MailFits(start, d.node.ctx, mail, order)
       && (DriveStep(start, d, mail).1 == Running ==>
             Arrives(start, DriveStep(start, d, mail).0, mailbox[1..], order))
  }

  predicate Weaker(a: Order, b: Order) { a.Arbitrary? || a == b || b.Gapless? }

  lemma {:induction false} ArrivesWeaker(start: Start, d: Drive, mailbox: seq<Mail>, a: Order, b: Order)
    requires start.checkpointEvery > 0 && Weaker(a, b) && Arrives(start, d, mailbox, b)
    ensures Arrives(start, d, mailbox, a)
    decreases |mailbox|
  {
    if |d.completed| < |start.groups| && mailbox != [] && DriveStep(start, d, mailbox[0]).1 == Running {
      ArrivesWeaker(start, DriveStep(start, d, mailbox[0]).0, mailbox[1..], a, b);
    }
  }

  // ----- the invariant

  /** The context knows the groups and the shards of the job, and no others. */
  ghost predicate Tracks(start: Start, ctx: Context) {
    SameGroups(start.groups, ctx.groups) && ctx.summaries.Keys == GroupShards(start.groups)
  }

  ghost predicate ShardsTracked(start: Start, ctx: Context) {
    && Tracks(start, ctx)
    && (forall s :: s in ctx.summaries ==> ctx.summaries[s].generation <= start.maxWindows)
    && (forall s :: s in ctx.summaries ==> ctx.summaries[s].generation <= ctx.window)
  }

  /** Enough checkpoints exist for the slowest shard. */
  ghost predicate CountKept(start: Start, ctx: Context)
    requires start.checkpointEvery > 0
  {
    exists s :: s in ctx.summaries
      && ctx.summaries[s].generation / start.checkpointEvery <= ctx.checkpointGeneration
  }

  ghost predicate AllFinal(start: Start, ctx: Context) {
    forall s :: s in ctx.summaries ==> ctx.summaries[s].generation >= start.maxWindows
  }

  ghost predicate FlagEarned(start: Start, d: Drive)
    requires start.checkpointEvery > 0
  {
    d.node.ctx.finalCommitted ==>
      && AllFinal(start, d.node.ctx)
      && d.node.ctx.checkpointGeneration >= FinalCheckpointGeneration(start)
      && d.node.disk == Some(Publish(start, d.node.ctx))
      && d.manifests != []
      && CoversFinal(start, d.manifests[|d.manifests| - 1].checkpointGeneration, d.manifests[|d.manifests| - 1].shards)
      && d.manifests[|d.manifests| - 1].shards == Listing(d.node.ctx.summaries)
      && d.manifests[|d.manifests| - 1].checkpointGeneration == d.node.ctx.checkpointGeneration
  }

  ghost predicate DriveInv(start: Start, d: Drive)
    requires start.checkpointEvery > 0
  {
    && ShardsTracked(start, d.node.ctx)
    && d.completed == AlreadyComplete(start, d.node.ctx)
    && FlagEarned(start, d)
  }

  // ----- listings

  lemma {:induction false} ListingFacts(m: map<ShardId, Summary>, s: ShardId)
    requires s in m
    ensures ShardEntry(s, m[s]) in Listing(m)
    ensures FindShard(Listing(m), s) == Some(m[s])
    decreases |m|
  {
    var k := Least(m.Keys);
    assert (m - {k}).Keys == m.Keys - {k};
    var rest := Listing(m - {k});
    assert Listing(m) == [ShardEntry(k, m[k])] + rest;
    if s != k {
      ListingFacts(m - {k}, s);
      assert Listing(m)[1..] == rest;
    }
  }

  lemma {:induction false} ListingOnly(m: map<ShardId, Summary>, e: ShardEntry)
    requires e in Listing(m)
    ensures e.shardId in m && m[e.shardId] == e.summary
    decreases |m|
  {
    var k := Least(m.Keys);
    assert (m - {k}).Keys == m.Keys - {k};
    var rest := Listing(m - {k});
    assert Listing(m) == [ShardEntry(k, m[k])] + rest;
    if e != ShardEntry(k, m[k]) {
      ListingOnly(m - {k}, e);
    }
  }

  lemma ListingCovers(start: Start, ctx: Context, generation: u64)
    requires start.checkpointEvery > 0
    ensures CoversFinal(start, generation, Listing(ctx.summaries))
            <==> generation >= FinalCheckpointGeneration(start) && AllFinal(start, ctx)
  {
    var entries := Listing(ctx.summaries);
    if AllFinal(start, ctx) {
      forall i | 0 <= i < |entries| ensures entries[i].summary.generation >= start.maxWindows {
        ListingOnly(ctx.summaries, entries[i]);
      }
    }
    forall s | s in ctx.summaries
      ensures CoversFinal(start, generation, entries) ==> ctx.summaries[s].generation >= start.maxWindows
    {
      ListingFacts(ctx.summaries, s);
    }
  }

  // ----- the count of a job

  /** The saturating addition of `final_checkpoint_generation` does not lose the last checkpoint. */
  predicate CeilingFits(start: Start)
    requires start.checkpointEvery > 0
  {
    start.maxWindows <= U64_MAX / start.checkpointEvery * start.checkpointEvery
  }

  /**
   `final_checkpoint_generation` never exceeds the ceiling of
   max_windows / checkpoint_every, and is the ceiling exactly when max_windows is
   at most the largest multiple of checkpoint_every in a `u64`.
   */
  lemma FinalIsCeilingIff(start: Start)
    requires ValidStart(start)
    ensures var n := FinalCheckpointGeneration(start);
            && (n - 1) * start.checkpointEvery < start.maxWindows
            && (start.maxWindows <= n * start.checkpointEvery <==> CeilingFits(start))
  {
    var w, e := start.maxWindows, start.checkpointEvery;
    var n, q := FinalCheckpointGeneration(start), U64_MAX / e;
    QuotientOf(U64_MAX, e);
    if w + (e - 1) <= U64_MAX {
      QuotientOf(w + e - 1, e);
    }
    assert (n - 1) * e == n * e - e;
  }

  /** With the longest job and an interval of half the range, one checkpoint would cover the job but two are due. */
  lemma SaturationLosesACheckpoint(start: Start)
    requires start.maxWindows == U64_MAX && start.checkpointEvery == 0x8000_0000_0000_0000
    ensures FinalCheckpointGeneration(start) == 1 && !CeilingFits(start)
    ensures 1 * start.checkpointEvery < start.maxWindows <= 2 * start.checkpointEvery
  {
  }

  lemma QuotientOf(a: nat, e: nat)
    requires e > 0
    ensures a / e * e <= a < a / e * e + e
  {
    assert a == a / e * e + a % e;
  }

  // ----- keeping the invariant

  lemma FindSame(a: seq<Group>, b: seq<Group>, id: GroupId)
    requires SameGroups(a, b) && FindGroup(b, id).Some?
    ensures exists g :: g in a && g.groupId == id && g.shardId == FindGroup(b, id).value.shardId
  {
    var found := FindGroup(b, id).value;
    var i :| 0 <= i < |b| && b[i] == found;
    assert a[i] in a;
  }

  /** One group per shard: finishing a shard completes exactly its group. */
  lemma CompletedAfter(start: Start, ctx: Context, a: Aggregate, g: Group)
    requires GroupsFit(start) && ShardsTracked(start, ctx)
    requires g in start.groups && g.groupId == a.groupId && g.shardId == a.shardId
    requires Fits(Aligned, ctx, a) && a.window <= start.maxWindows
    ensures AlreadyComplete(start, RecordAggregate(ctx, a))
            == AlreadyComplete(start, ctx) + if a.window >= start.maxWindows then {a.groupId} else {}
  {
    var after := RecordAggregate(ctx, a);
    forall other | other in start.groups && other != g
      ensures other.shardId != a.shardId && other.groupId != a.groupId
    {
      var i :| 0 <= i < |start.groups| && start.groups[i] == g;
      var j :| 0 <= j < |start.groups| && start.groups[j] == other;
    }
    assert a.window >= start.maxWindows ==> g.groupId in AlreadyComplete(start, after);
  }

  function CountedAfter(start: Start, ctx: Context, a: Aggregate): Context
    requires start.checkpointEvery > 0
  {
    var recorded := RecordAggregate(ctx, a);
    if CommitDue(start, recorded, a)
    then recorded.(checkpointGeneration := SatAdd(ctx.checkpointGeneration, 1)) else recorded
  }

  /** The slowest shard never runs ahead of the checkpoint count. */
  lemma CountAfter(start: Start, ctx: Context, a: Aggregate)
    requires start.checkpointEvery > 0 && CountKept(start, ctx) && Fits(Gapless, ctx, a)
    ensures CountKept(start, CountedAfter(start, ctx, a))
  {
    var s :| s in ctx.summaries
             && ctx.summaries[s].generation / start.checkpointEvery <= ctx.checkpointGeneration;
    if s != a.shardId {
      CountWitness(start, CountedAfter(start, ctx, a), s);
    } else if AllShardsStarted(RecordAggregate(ctx, a)) {
      CountOfAdvancedShard(start, ctx, a);
    } else {
      CountOfIdleShard(start, CountedAfter(start, ctx, a));
    }
  }

  lemma CountOfAdvancedShard(start: Start, ctx: Context, a: Aggregate)
    requires start.checkpointEvery > 0 && Fits(Gapless, ctx, a) && AllShardsStarted(RecordAggregate(ctx, a))
    requires ctx.summaries[a.shardId].generation / start.checkpointEvery <= ctx.checkpointGeneration
    ensures CountKept(start, CountedAfter(start, ctx, a))
  {
    NextQuotient(ctx.summaries[a.shardId].generation, start.checkpointEvery);
    CountWitness(start, CountedAfter(start, ctx, a), a.shardId);
  }

  lemma CountOfIdleShard(start: Start, ctx: Context)
    requires start.checkpointEvery > 0 && !AllShardsStarted(ctx)
    ensures CountKept(start, ctx)
  {
    var idle :| idle in ctx.summaries && ctx.summaries[idle].generation <= 0;
    CountKeptAtZero(start, ctx, idle);
  }

  lemma CountWitness(start: Start, ctx: Context, s: ShardId)
    requires start.checkpointEvery > 0 && s in ctx.summaries
    requires ctx.summaries[s].generation / start.checkpointEvery <= ctx.checkpointGeneration
    ensures CountKept(start, ctx)
  {
  }

  lemma NextQuotient(g: nat, e: int)
    requires e > 0
    ensures (g + 1) / e == if (g + 1) % e == 0 then g / e + 1 else g / e
    ensures (g + 1) / e <= g + 1
  {
    assert g == g / e * e + g % e;
    NextDivMod(g, e, g / e, g % e);
    QuotientBounds(g + 1, e, 0, g + 1);
  }

  lemma NextDivMod(g: int, e: int, q: int, r: int)
    requires e > 0 && 0 <= r < e && g == q * e + r
    ensures if r + 1 == e then (g + 1) / e == q + 1 && (g + 1) % e == 0 else (g + 1) / e == q && (g + 1) % e == r + 1
  {
    if r + 1 == e {
      assert (q + 1) * e == q * e + e;
      DivModIs(g + 1, e, q + 1, 0);
    } else {
      DivModIs(g + 1, e, q, r + 1);
    }
  }

  lemma CommitFacts(start: Start, node: Node, env: Env)
    requires start.checkpointEvery > 0 && CommitCheckpoint(start, node, env).1
    ensures var next := CommitCheckpoint(start, node, env).0;
            && next.ctx == node.ctx.(checkpointGeneration := SatAdd(node.ctx.checkpointGeneration, 1),
                                     checkpoint := Some(env.hash), finalCommitted := next.ctx.finalCommitted)
            && (next.ctx.finalCommitted <==>
                  node.ctx.finalCommitted
                  || (SatAdd(node.ctx.checkpointGeneration, 1) >= FinalCheckpointGeneration(start)
                      && AllFinal(start, node.ctx)))
            && next.disk == Some(Publish(start, next.ctx))
  {
    ListingCovers(start, node.ctx, SatAdd(node.ctx.checkpointGeneration, 1));
  }

  /** The invariant looks only at what is published, the group layout and the record of checkpoints. */
  lemma InvSameView(start: Start, d: Drive, e: Drive)
    requires start.checkpointEvery > 0 && DriveInv(start, d)
    requires e.completed == d.completed && e.manifests == d.manifests && e.node.disk == d.node.disk
    requires Publish(start, e.node.ctx) == Publish(start, d.node.ctx)
    requires e.node.ctx.summaries == d.node.ctx.summaries && e.node.ctx.finalCommitted == d.node.ctx.finalCommitted
    requires SameGroups(d.node.ctx.groups, e.node.ctx.groups)
    ensures DriveInv(start, e)
  {
  }

  /** The shape of the state after an accepted aggregate. */
  lemma AcceptedShape(start: Start, d: Drive, peer: NodeId, a: Aggregate, env: Env)
    requires start.checkpointEvery > 0 && Accepts(start, d.node.ctx, peer, a)
    requires AggregateStep(start, d, peer, a, env).1 == Running
    ensures var next := AggregateStep(start, d, peer, a, env).0;
            var recorded := Persist(start, d.node.(ctx := RecordAggregate(d.node.ctx, a)), true);
            && next.completed == (if a.window >= start.maxWindows then d.completed + {a.groupId} else d.completed)
            && (if CommitDue(start, recorded.ctx, a)
                then next.node == CommitCheckpoint(start, recorded, env).0 && CommitCheckpoint(start, recorded, env).1
                     && next.manifests == d.manifests + [MakeManifest(recorded.ctx, env.hash)]
                else next.node == recorded && next.manifests == d.manifests)
  {
  }

  /** After an accepted aggregate the shards, the window and the count are those of the recorded context. */
  lemma AcceptedContext(start: Start, d: Drive, peer: NodeId, a: Aggregate, env: Env)
    requires start.checkpointEvery > 0 && Accepts(start, d.node.ctx, peer, a)
    requires AggregateStep(start, d, peer, a, env).1 == Running
    ensures var next := AggregateStep(start, d, peer, a, env).0;
            var recorded := RecordAggregate(d.node.ctx, a);
            var count := if CommitDue(start, recorded, a) then SatAdd(d.node.ctx.checkpointGeneration, 1)
                         else d.node.ctx.checkpointGeneration;
            && next.node.ctx == recorded.(checkpointGeneration := count, checkpoint := next.node.ctx.checkpoint,
                                          finalCommitted := next.node.ctx.finalCommitted)
            && next.node.disk == Some(Publish(start, next.node.ctx))
            && (next.node.ctx.finalCommitted <==>
                  || d.node.ctx.finalCommitted
                  || (CommitDue(start, recorded, a) && AllFinal(start, next.node.ctx)
                      && count >= FinalCheckpointGeneration(start)))
  {
    AcceptedShape(start, d, peer, a, env);
    var recorded := Persist(start, d.node.(ctx := RecordAggregate(d.node.ctx, a)), true);
    if CommitDue(start, recorded.ctx, a) {
      CommitFacts(start, recorded, env);
    }
  }

  lemma AcceptedFlag(start: Start, d: Drive, peer: NodeId, a: Aggregate, env: Env)
    requires start.checkpointEvery > 0 && Accepts(start, d.node.ctx, peer, a)
    requires AggregateStep(start, d, peer, a, env).1 == Running
    requires !d.node.ctx.finalCommitted
    ensures FlagEarned(start, AggregateStep(start, d, peer, a, env).0)
  {
    AcceptedContext(start, d, peer, a, env);
    AcceptedShape(start, d, peer, a, env);
    var next := AggregateStep(start, d, peer, a, env).0;
    if next.node.ctx.finalCommitted {
      ListingCovers(start, next.node.ctx, next.node.ctx.checkpointGeneration);
      assert next.manifests[|next.manifests| - 1] == MakeManifest(RecordAggregate(d.node.ctx, a), env.hash);
    }
  }

  lemma AcceptedKeeps(start: Start, d: Drive, peer: NodeId, a: Aggregate, env: Env)
    requires ValidStart(start) && GroupsFit(start) && DriveInv(start, d)
    requires AggregateStep(start, d, peer, a, env).1 == Running
    requires Accepts(start, d.node.ctx, peer, a) && Fits(Aligned, d.node.ctx, a)
    ensures DriveInv(start, AggregateStep(start, d, peer, a, env).0)
  {
    RecordedTracked(start, d.node.ctx, a);
    AcceptedFlag(start, d, peer, a, env);
    AcceptedShards(start, d, peer, a, env);
  }

  lemma AcceptedShards(start: Start, d: Drive, peer: NodeId, a: Aggregate, env: Env)
    requires ValidStart(start) && GroupsFit(start) && DriveInv(start, d)
    requires AggregateStep(start, d, peer, a, env).1 == Running
    requires Accepts(start, d.node.ctx, peer, a) && Fits(Aligned, d.node.ctx, a)
    ensures var next := AggregateStep(start, d, peer, a, env).0;
            ShardsTracked(start, next.node.ctx) && next.completed == AlreadyComplete(start, next.node.ctx)
  {
    var ctx, next := d.node.ctx, AggregateStep(start, d, peer, a, env).0;
    RecordedTracked(start, ctx, a);
    AcceptedContext(start, d, peer, a, env);
    CompletedRecorded(start, d, peer, a, env);
    SameShards(start, RecordAggregate(ctx, a), next.node.ctx);
  }

  lemma CompletedRecorded(start: Start, d: Drive, peer: NodeId, a: Aggregate, env: Env)
    requires ValidStart(start) && GroupsFit(start) && DriveInv(start, d)
    requires AggregateStep(start, d, peer, a, env).1 == Running
    requires Accepts(start, d.node.ctx, peer, a) && Fits(Aligned, d.node.ctx, a)
    ensures AggregateStep(start, d, peer, a, env).0.completed
            == AlreadyComplete(start, RecordAggregate(d.node.ctx, a))
  {
    AcceptedShape(start, d, peer, a, env);
    FindSame(start.groups, d.node.ctx.groups, a.groupId);
    var g :| g in start.groups && g.groupId == a.groupId && g.shardId == a.shardId;
    CompletedAfter(start, d.node.ctx, a, g);
  }

  lemma SameShards(start: Start, a: Context, b: Context)
    requires a.summaries == b.summaries && a.window == b.window && a.groups == b.groups
    ensures AlreadyComplete(start, a) == AlreadyComplete(start, b)
    ensures ShardsTracked(start, a) ==> ShardsTracked(start, b)
  {
  }

  lemma RecordedTracked(start: Start, ctx: Context, a: Aggregate)
    requires ShardsTracked(start, ctx) && Fits(Aligned, ctx, a) && a.window <= start.maxWindows
    ensures ShardsTracked(start, RecordAggregate(ctx, a)) && !AllFinal(start, ctx)
  {
  }

  lemma RefusedKeeps(start: Start, d: Drive, peer: NodeId, a: Aggregate, env: Env)
    requires ValidStart(start) && DriveInv(start, d) && !Accepts(start, d.node.ctx, peer, a)
    ensures DriveInv(start, AggregateStep(start, d, peer, a, env).0)
  {
    InvSameView(start, d, AggregateStep(start, d, peer, a, env).0);
  }

  /** Any other message leaves a coordinator that is still running with the same published state. */
  lemma OtherMessageView(start: Start, node: Node, peer: NodeId, message: Message, env: Env)
    requires start.checkpointEvery > 0 && !message.Result?
    requires node.live && node.ctx.role == Coordinator && peer != node.ctx.coordinator
    ensures var next := CoordinatorStep(start, node, peer, message, env);
            next.live && next.ctx.role == Coordinator ==>
              next.ctx == node.ctx.(votedTerm := next.ctx.votedTerm, votedCandidate := next.ctx.votedCandidate)
              && next.disk == node.disk
  {
  }

  lemma StepKeeps(start: Start, d: Drive, mail: Mail)
    requires ValidStart(start) && GroupsFit(start) && DriveInv(start, d)
    requires DriveStep(start, d, mail).1 == Running
    requires d.node.ctx.role == Coordinator && d.node.live && MailFits(start, d.node.ctx, mail, Aligned)
    ensures DriveInv(start, DriveStep(start, d, mail).0)
  {
    var next := DriveStep(start, d, mail).0;
    match mail {
      case Message(peer, message, env) =>
        if !message.Result? {
          OtherMessageView(start, d.node, peer, message, env);
          InvSameView(start, d, next);
        } else if Accepts(start, d.node.ctx, peer, message.aggregate) {
          AcceptedKeeps(start, d, peer, message.aggregate, env);
        } else {
          RefusedKeeps(start, d, peer, message.aggregate, env);
        }
      case Lost(peer, restored) =>
        ReplaceKeeps(d.node.ctx.(failed := d.node.ctx.failed + {peer}), peer, restored, 0);
        InvSameView(start, d, next);
    }
  }

  /** A step that accepts no aggregate leaves the counters and the shards alone. */
  lemma QuietStep(start: Start, d: Drive, mail: Mail)
    requires start.checkpointEvery > 0 && DriveStep(start, d, mail).1 == Running
    requires d.node.ctx.role == Coordinator && d.node.live && MailFits(start, d.node.ctx, mail, Arbitrary)
    requires !AcceptsMail(start, d.node.ctx, mail)
    ensures var next := DriveStep(start, d, mail).0.node.ctx;
            && next.summaries == d.node.ctx.summaries && next.window == d.node.ctx.window
            && SameGroups(d.node.ctx.groups, next.groups)
            && next.checkpointGeneration == d.node.ctx.checkpointGeneration
            && next.finalCommitted == d.node.ctx.finalCommitted
  {
    match mail {
      case Message(peer, message, env) =>
        if !message.Result? {
          OtherMessageView(start, d.node, peer, message, env);
        }
      case Lost(peer, restored) =>
        ReplaceKeeps(d.node.ctx.(failed := d.node.ctx.failed + {peer}), peer, restored, 0);
    }
  }

  lemma StepKeepsCount(start: Start, d: Drive, mail: Mail)
    requires ValidStart(start) && CountKept(start, d.node.ctx)
    requires DriveStep(start, d, mail).1 == Running
    requires d.node.ctx.role == Coordinator && d.node.live && MailFits(start, d.node.ctx, mail, Gapless)
    ensures CountKept(start, DriveStep(start, d, mail).0.node.ctx)
  {
    var ctx := d.node.ctx;
    if AcceptsMail(start, ctx, mail) {
      AcceptedContext(start, d, mail.peer, mail.message.aggregate, mail.env);
      CountAfter(start, ctx, mail.message.aggregate);
    } else {
      QuietStep(start, d, mail);
    }
  }

  lemma StepKeepsRole(start: Start, d: Drive, mail: Mail)
    requires start.checkpointEvery > 0 && DriveStep(start, d, mail).1 == Running
    requires d.node.ctx.role == Coordinator && d.node.live
    ensures DriveStep(start, d, mail).0.node.ctx.role == Coordinator && DriveStep(start, d, mail).0.node.live
  {
    if mail.Lost? {
      ReplaceKeeps(d.node.ctx.(failed := d.node.ctx.failed + {mail.peer}), mail.peer, mail.restored, 0);
    }
  }

  // ----- the end of the job

  function Ids(groups: seq<Group>): set<GroupId> { set g | g in groups :: g.groupId }

  lemma {:induction false} IdsCount(groups: seq<Group>)
    requires forall i, j :: 0 <= i < j < |groups| ==> groups[i].groupId != groups[j].groupId
    ensures |Ids(groups)| == |groups|
  {
    if groups == [] {
      assert Ids(groups) == {};
    } else {
      var last, rest := groups[|groups| - 1], groups[..|groups| - 1];
      IdsCount(rest);
      assert groups == rest + [last];
      assert Ids(groups) == Ids(rest) + {last.groupId};
      assert last.groupId !in Ids(rest);
    }
  }

  lemma SameIdSameGroup(start: Start, g: Group, h: Group)
    requires GroupsFit(start) && g in start.groups && h in start.groups && g.groupId == h.groupId
    ensures g == h
  {
    var i :| 0 <= i < |start.groups| && start.groups[i] == g;
    var j :| 0 <= j < |start.groups| && start.groups[j] == h;
  }

  lemma UnfinishedGroup(start: Start, ctx: Context, g: Group)
    requires GroupsFit(start) && g in start.groups && g.shardId in ctx.summaries
    requires ctx.summaries[g.shardId].generation < start.maxWindows
    ensures |AlreadyComplete(start, ctx)| < |start.groups|
  {
    var done, ids := AlreadyComplete(start, ctx), Ids(start.groups);
    IdsCount(start.groups);
    forall id | id in done ensures id in ids && id != g.groupId {
      var h :| h in start.groups && h.shardId in ctx.summaries
               && ctx.summaries[h.shardId].generation >= start.maxWindows && h.groupId == id;
      if h.groupId == g.groupId {
        SameIdSameGroup(start, g, h);
      }
    }
    SubsetSize(done, ids - {g.groupId});
    assert g.groupId in ids;
  }

  lemma CompletedMeansFinal(start: Start, ctx: Context)
    requires GroupsFit(start) && ShardsTracked(start, ctx)
    requires |AlreadyComplete(start, ctx)| >= |start.groups|
    ensures AllFinal(start, ctx) && SummariesFinal(start, ctx.summaries)
  {
    forall g | g in start.groups ensures ctx.summaries[g.shardId].generation >= start.maxWindows {
      if ctx.summaries[g.shardId].generation < start.maxWindows {
        UnfinishedGroup(start, ctx, g);
      }
    }
  }

  /** What a finished job has achieved. */
  ghost predicate Committed(start: Start, d: Drive)
    requires start.checkpointEvery > 0
  {
    && d.node.ctx.finalCommitted
    && d.node.ctx.checkpointGeneration >= FinalCheckpointGeneration(start)
    && (CeilingFits(start) ==> d.node.ctx.checkpointGeneration * start.checkpointEvery >= start.maxWindows)
    && d.node.disk.Some? && StateCoversFinal(start, d.node.disk.value)
    && d.manifests != []
    && var m := d.manifests[|d.manifests| - 1];
       && m.checkpointGeneration == d.node.ctx.checkpointGeneration
       && forall g :: g in start.groups ==>
            exists e :: e in m.shards && e.shardId == g.shardId && e.summary.generation >= start.maxWindows
  }

  /** A record published with every shard final keeps the job from being revived. */
  lemma PublishedCovers(start: Start, ctx: Context)
    requires ValidStart(start) && GroupsFit(start) && ShardsTracked(start, ctx) && AllFinal(start, ctx)
    requires ctx.checkpointGeneration >= FinalCheckpointGeneration(start)
    ensures StateCoversFinal(start, Publish(start, ctx))
  {
    var first := start.groups[0].shardId;
    assert start.groups[0] in start.groups;
    assert first in GroupShards(start.groups);
    assert start.maxWindows <= ctx.summaries[first].generation <= ctx.window;
    forall e | e in start.shards
      ensures FindShard(Listing(ctx.summaries), e.shardId).Some?
      ensures FindShard(Listing(ctx.summaries), e.shardId).value.generation >= start.maxWindows
    {
      assert e.shardId in EntryShards(start.shards);
      ListingFacts(ctx.summaries, e.shardId);
    }
  }

  lemma FlagMeansCommitted(start: Start, d: Drive)
    requires ValidStart(start) && GroupsFit(start)
    requires ShardsTracked(start, d.node.ctx) && FlagEarned(start, d) && d.node.ctx.finalCommitted
    ensures Committed(start, d)
  {
    var ctx := d.node.ctx;
    FinalIsCeilingIff(start);
    MulLe(FinalCheckpointGeneration(start), ctx.checkpointGeneration, start.checkpointEvery);
    PublishedCovers(start, ctx);
    forall g | g in start.groups
      ensures exists e :: e in Listing(ctx.summaries) && e.shardId == g.shardId
                          && e.summary.generation >= start.maxWindows
    {
      assert g.shardId in GroupShards(start.groups);
      ListingFacts(ctx.summaries, g.shardId);
    }
  }

  lemma CeilingStep(w: nat, e: nat, n: int, c: int)
    requires e > 0 && w > 0 && (n - 1) * e < w && w / e <= c
    ensures c + 1 >= n
  {
    var q := w / e;
    assert w == q * e + w % e;
    assert (q + 1) * e == q * e + e;
    if q + 1 <= n - 1 {
      MulLe(q + 1, n - 1, e);
    }
  }

  /** The slowest shard has reached max_windows, so one more checkpoint reaches the final generation. */
  lemma FinalCountReached(start: Start, ctx: Context)
    requires ValidStart(start)
    requires ShardsTracked(start, ctx) && CountKept(start, ctx) && AllFinal(start, ctx)
    ensures SatAdd(ctx.checkpointGeneration, 1) >= FinalCheckpointGeneration(start)
  {
    FinalIsCeilingIff(start);
    var s :| s in ctx.summaries
             && ctx.summaries[s].generation / start.checkpointEvery <= ctx.checkpointGeneration;
    assert ctx.summaries[s].generation == start.maxWindows;
    CeilingStep(start.maxWindows, start.checkpointEvery, FinalCheckpointGeneration(start), ctx.checkpointGeneration);
  }

  // ----- exactly when a finished job is committed

  /** Checkpoints the loop takes on its way through the mailbox. */
  function Taken(start: Start, d: Drive, mailbox: seq<Mail>): nat
    requires start.checkpointEvery > 0
    decreases |mailbox|
  {
    if |d.completed| >= |start.groups| || mailbox == [] then 0
    else
      var (next, outcome) := DriveStep(start, d, mailbox[0]);
      TakenBy(start, d.node.ctx, mailbox[0]) + if outcome == Running then Taken(start, next, mailbox[1..]) else 0
  }

  function TakenBy(start: Start, ctx: Context, mail: Mail): nat
    requires start.checkpointEvery > 0
  {
    if AcceptsMail(start, ctx, mail)
       && CommitDue(start, RecordAggregate(ctx, mail.message.aggregate), mail.message.aggregate) then 1 else 0
  }

  /** What a running step does to the shards, the count and the flag, whatever arrives. */
  lemma StepCounts(start: Start, d: Drive, mail: Mail)
    requires ValidStart(start) && GroupsFit(start) && Tracks(start, d.node.ctx)
    requires DriveStep(start, d, mail).1 == Running
    requires d.node.ctx.role == Coordinator && d.node.live && MailFits(start, d.node.ctx, mail, Arbitrary)
    ensures var ctx, next := d.node.ctx, DriveStep(start, d, mail).0.node.ctx;
            && Tracks(start, next)
            && next.checkpointGeneration == SatAdd(ctx.checkpointGeneration, TakenBy(start, ctx, mail))
            && (AllFinal(start, ctx) ==> AllFinal(start, next))
            && (next.finalCommitted <==>
                  || ctx.finalCommitted
                  || (TakenBy(start, ctx, mail) == 1 && AllFinal(start, next)
                      && next.checkpointGeneration >= FinalCheckpointGeneration(start)))
  {
    if AcceptsMail(start, d.node.ctx, mail) {
      AcceptedContext(start, d, mail.peer, mail.message.aggregate, mail.env);
      AcceptedTracks(start, d.node.ctx, mail.peer, mail.message.aggregate);
    } else {
      QuietStep(start, d, mail);
    }
  }

  lemma AcceptedTracks(start: Start, ctx: Context, peer: NodeId, a: Aggregate)
    requires Tracks(start, ctx) && Accepts(start, ctx, peer, a)
    ensures Tracks(start, RecordAggregate(ctx, a))
    ensures AllFinal(start, ctx) ==> AllFinal(start, RecordAggregate(ctx, a))
  {
    FindSame(start.groups, ctx.groups, a.groupId);
    assert a.shardId in GroupShards(start.groups);
  }

  lemma FinalBothWays(start: Start, ctx: Context)
    requires GroupsFit(start) && Tracks(start, ctx)
    ensures SummariesFinal(start, ctx.summaries) <==> AllFinal(start, ctx)
  {
    assert ctx.summaries.Keys == EntryShards(start.shards);
    if SummariesFinal(start, ctx.summaries) {
      forall s | s in ctx.summaries ensures ctx.summaries[s].generation >= start.maxWindows {
        var e :| e in start.shards && e.shardId == s;
      }
    }
    forall e | e in start.shards ensures e.shardId in ctx.summaries {
      assert e.shardId in EntryShards(start.shards);
    }
  }

  lemma FinishFlag(start: Start, d: Drive, last: Env)
    requires ValidStart(start) && GroupsFit(start) && Tracks(start, d.node.ctx)
    requires Finish(start, d, last).1 == Finished
    ensures var ctx, end := d.node.ctx, Finish(start, d, last).0.node.ctx;
            && end.summaries == ctx.summaries && end.groups == ctx.groups && end.window == ctx.window
            && (end.finalCommitted <==>
                  || ctx.finalCommitted
                  || (AllFinal(start, ctx) && ctx.checkpointGeneration + 1 >= FinalCheckpointGeneration(start)))
  {
    FinalBothWays(start, d.node.ctx);
    if SummariesFinal(start, d.node.ctx.summaries) && !d.node.ctx.finalCommitted {
      CommitFacts(start, d.node, last);
    }
  }

  lemma {:induction false} LoopKeepsFinal(start: Start, d: Drive, mailbox: seq<Mail>, last: Env)
    requires ValidStart(start) && GroupsFit(start) && Tracks(start, d.node.ctx)
    requires d.node.ctx.role == Coordinator && d.node.live && Arrives(start, d, mailbox, Arbitrary)
    requires DriveLoop(start, d, mailbox, last).1 == Finished
    ensures var end := DriveLoop(start, d, mailbox, last).0.node.ctx;
            Tracks(start, end) && (AllFinal(start, d.node.ctx) ==> AllFinal(start, end))
    decreases |mailbox|
  {
    if |d.completed| >= |start.groups| {
      FinishFlag(start, d, last);
    } else {
      StepCounts(start, d, mailbox[0]);
      StepKeepsRole(start, d, mailbox[0]);
      LoopKeepsFinal(start, DriveStep(start, d, mailbox[0]).0, mailbox[1..], last);
    }
  }

  /**
   Whatever arrives, including results with gaps and results whose generation is
   not their window: a job that reports success has the final flag exactly when
   it had it on entry, or every shard is final and the checkpoints it inherited,
   the ones it took and the closing one reach the final generation.
   */
  lemma {:induction false} FinishedFlagIff(start: Start, d: Drive, mailbox: seq<Mail>, last: Env)
    requires ValidStart(start) && GroupsFit(start) && Tracks(start, d.node.ctx)
    requires d.node.ctx.role == Coordinator && d.node.live && Arrives(start, d, mailbox, Arbitrary)
    requires DriveLoop(start, d, mailbox, last).1 == Finished
    ensures var ctx, end := d.node.ctx, DriveLoop(start, d, mailbox, last).0.node.ctx;
            end.finalCommitted <==>
              || ctx.finalCommitted
              || (AllFinal(start, end)
                  && ctx.checkpointGeneration + Taken(start, d, mailbox) + 1 >= FinalCheckpointGeneration(start))
    decreases |mailbox|
  {
    if |d.completed| >= |start.groups| {
      FinishFlag(start, d, last);
    } else {
      var next := DriveStep(start, d, mailbox[0]).0;
      StepCounts(start, d, mailbox[0]);
      StepKeepsRole(start, d, mailbox[0]);
      LoopKeepsFinal(start, next, mailbox[1..], last);
      FinishedFlagIff(start, next, mailbox[1..], last);
    }
  }

  lemma FinishKeeps(start: Start, d: Drive, last: Env)
    requires ValidStart(start) && GroupsFit(start) && DriveInv(start, d) && |d.completed| >= |start.groups|
    requires Finish(start, d, last).1 == Finished
    ensures var end := Finish(start, d, last).0;
            ShardsTracked(start, end.node.ctx) && FlagEarned(start, end) && AllFinal(start, end.node.ctx)
  {
    CompletedMeansFinal(start, d.node.ctx);
    var end := Finish(start, d, last).0;
    if !d.node.ctx.finalCommitted {
      CommitFacts(start, d.node, last);
      ListingCovers(start, d.node.ctx, end.node.ctx.checkpointGeneration);
      SameShards(start, d.node.ctx, end.node.ctx);
    }
  }

  lemma {:induction false} LoopKeeps(start: Start, d: Drive, mailbox: seq<Mail>, last: Env)
    requires ValidStart(start) && GroupsFit(start) && DriveInv(start, d)
    requires d.node.ctx.role == Coordinator && d.node.live && Arrives(start, d, mailbox, Aligned)
    requires DriveLoop(start, d, mailbox, last).1 == Finished
    ensures var end := DriveLoop(start, d, mailbox, last).0;
            ShardsTracked(start, end.node.ctx) && FlagEarned(start, end) && AllFinal(start, end.node.ctx)
    decreases |mailbox|
  {
    if |d.completed| >= |start.groups| {
      FinishKeeps(start, d, last);
    } else {
      StepKeeps(start, d, mailbox[0]);
      StepKeepsRole(start, d, mailbox[0]);
      LoopKeeps(start, DriveStep(start, d, mailbox[0]).0, mailbox[1..], last);
    }
  }

  /**
   However many results are lost, a job that reports success is committed exactly
   when the checkpoints it inherited, the ones it took and the closing one reach
   the final generation. Only the generation of a result must be its window.
   */
  lemma FinishedJobIsCommittedIff(start: Start, d: Drive, mailbox: seq<Mail>, last: Env)
    requires ValidStart(start) && GroupsFit(start) && DriveInv(start, d)
    requires d.node.ctx.role == Coordinator && d.node.live && Arrives(start, d, mailbox, Aligned)
    requires DriveLoop(start, d, mailbox, last).1 == Finished
    ensures Committed(start, DriveLoop(start, d, mailbox, last).0)
            <==> d.node.ctx.checkpointGeneration + Taken(start, d, mailbox) + 1 >= FinalCheckpointGeneration(start)
  {
    var end := DriveLoop(start, d, mailbox, last).0;
    ArrivesWeaker(start, d, mailbox, Arbitrary, Aligned);
    FinishedFlagIff(start, d, mailbox, last);
    LoopKeeps(start, d, mailbox, last);
    if end.node.ctx.finalCommitted {
      FlagMeansCommitted(start, end);
    }
  }

  lemma GaplessStep(start: Start, d: Drive, mail: Mail)
    requires ValidStart(start) && GroupsFit(start) && DriveInv(start, d) && CountKept(start, d.node.ctx)
    requires DriveStep(start, d, mail).1 == Running
    requires d.node.ctx.role == Coordinator && d.node.live && MailFits(start, d.node.ctx, mail, Gapless)
    ensures var next := DriveStep(start, d, mail).0;
            && DriveInv(start, next) && CountKept(start, next.node.ctx)
            && next.node.ctx.checkpointGeneration
               == SatAdd(d.node.ctx.checkpointGeneration, TakenBy(start, d.node.ctx, mail))
  {
    StepKeeps(start, d, mail);
    StepCounts(start, d, mail);
    StepKeepsCount(start, d, mail);
  }

  lemma {:induction false} GaplessCountSuffices(start: Start, d: Drive, mailbox: seq<Mail>, last: Env)
    requires ValidStart(start) && GroupsFit(start) && DriveInv(start, d) && CountKept(start, d.node.ctx)
    requires d.node.ctx.role == Coordinator && d.node.live && Arrives(start, d, mailbox, Gapless)
    requires DriveLoop(start, d, mailbox, last).1 == Finished
    ensures d.node.ctx.checkpointGeneration + Taken(start, d, mailbox) + 1 >= FinalCheckpointGeneration(start)
    decreases |mailbox|
  {
    if |d.completed| >= |start.groups| {
      CompletedMeansFinal(start, d.node.ctx);
      FinalCountReached(start, d.node.ctx);
    } else {
      GaplessStep(start, d, mailbox[0]);
      StepKeepsRole(start, d, mailbox[0]);
      GaplessCountSuffices(start, DriveStep(start, d, mailbox[0]).0, mailbox[1..], last);
    }
  }

  /**
   Whatever the number of groups and however their results interleave with
   losses, elections and stray messages, if no result is missing then a job that
   reports success has a committed final manifest covering every shard, at least
   ceil(max_windows / checkpoint_every) checkpoints, and a record on disk that
   keeps it from being revived.
   */
  lemma FinishedJobIsCommitted(start: Start, d: Drive, mailbox: seq<Mail>, last: Env)
    requires ValidStart(start) && GroupsFit(start)
    requires DriveInv(start, d) && CountKept(start, d.node.ctx)
    requires d.node.ctx.role == Coordinator && d.node.live
    requires Arrives(start, d, mailbox, Gapless)
    requires DriveLoop(start, d, mailbox, last).1 == Finished
    ensures Committed(start, DriveLoop(start, d, mailbox, last).0)
  {
    GaplessCountSuffices(start, d, mailbox, last);
    ArrivesWeaker(start, d, mailbox, Aligned, Gapless);
    FinishedJobIsCommittedIff(start, d, mailbox, last);
  }

  ghost predicate FreshLayout(start: Start) {
    && GroupsFit(start)
    && (forall e :: e in start.shards ==> e.summary.generation == 0)
  }

  lemma FreshShardsTracked(start: Start)
    requires FreshLayout(start)
    ensures ShardsTracked(start, FreshContext(start, Coordinator))
    ensures var first := start.groups[0].shardId;
            && first in FreshContext(start, Coordinator).summaries
            && FreshContext(start, Coordinator).summaries[first].generation == 0
  {
    OverlayFresh(start.shards);
    assert start.groups[0] in start.groups;
  }

  /** The invariant holds where a fresh job enters the loop. */
  lemma FreshJobQualifies(start: Start)
    requires ValidStart(start) && FreshLayout(start)
    ensures var d := Enter(start, FreshNode(start, Coordinator));
            DriveInv(start, d) && CountKept(start, d.node.ctx)
  {
    var d := Enter(start, FreshNode(start, Coordinator));
    FreshShardsTracked(start);
    SameShards(start, FreshContext(start, Coordinator), d.node.ctx);
    CountKeptAtZero(start, d.node.ctx, start.groups[0].shardId);
  }

  /** The theorem for a job started from scratch. */
  lemma FreshJobIsCommitted(start: Start, mailbox: seq<Mail>, last: Env)
    requires ValidStart(start) && FreshLayout(start)
    requires Arrives(start, Enter(start, FreshNode(start, Coordinator)), mailbox, Gapless)
    requires DriveLoop(start, Enter(start, FreshNode(start, Coordinator)), mailbox, last).1 == Finished
    ensures Committed(start, DriveLoop(start, Enter(start, FreshNode(start, Coordinator)), mailbox, last).0)
  {
    FreshJobQualifies(start);
    FinishedJobIsCommitted(start, Enter(start, FreshNode(start, Coordinator)), mailbox, last);
  }

  lemma CountKeptAtZero(start: Start, ctx: Context, s: ShardId)
    requires start.checkpointEvery > 0 && s in ctx.summaries && ctx.summaries[s].generation == 0
    ensures CountKept(start, ctx)
  {
    assert ctx.summaries[s].generation / start.checkpointEvery == 0;
  }

  lemma {:induction false} OverlayFresh(entries: seq<ShardEntry>)
    requires forall e :: e in entries ==> e.summary.generation == 0
    ensures Overlay(map[], entries).Keys == EntryShards(entries)
    ensures forall s :: s in Overlay(map[], entries) ==> Overlay(map[], entries)[s].generation == 0
  {
    if entries != [] {
      var rest, last := entries[..|entries| - 1], entries[|entries| - 1];
      assert entries == rest + [last];
      OverlayFresh(rest);
      assert EntryShards(entries) == EntryShards(rest) + {last.shardId};
    }
  }

  // ----- exact accounting once every shard has started

  /** Checkpoints the remaining windows of these groups still owe. */
  function Due(start: Start, ctx: Context, groups: seq<Group>): int
    requires start.checkpointEvery > 0
    requires forall g :: g in groups ==> g.shardId in ctx.summaries
  {
    if groups == [] then 0
    else start.maxWindows / start.checkpointEvery
         - ctx.summaries[groups[0].shardId].generation / start.checkpointEvery
         + Due(start, ctx, groups[1..])
  }

  lemma {:induction false} DueAfter(start: Start, ctx: Context, a: Aggregate, groups: seq<Group>)
    requires start.checkpointEvery > 0 && Fits(Gapless, ctx, a)
    requires forall g :: g in groups ==> g.shardId in ctx.summaries
    requires forall i, j :: 0 <= i < j < |groups| ==> groups[i].shardId != groups[j].shardId
    ensures Due(start, RecordAggregate(ctx, a), groups)
            == Due(start, ctx, groups)
               - if a.window % start.checkpointEvery == 0 && (exists g :: g in groups && g.shardId == a.shardId)
                 then 1 else 0
  {
    if groups != [] {
      DueAfter(start, ctx, a, groups[1..]);
      NextQuotient(ctx.summaries[a.shardId].generation, start.checkpointEvery);
      if groups[0].shardId == a.shardId {
        assert groups[0] in groups;
      } else {
        assert (exists g :: g in groups && g.shardId == a.shardId)
               <==> (exists g :: g in groups[1..] && g.shardId == a.shardId);
      }
    }
  }

  lemma {:induction false} DueSame(start: Start, a: Context, b: Context, groups: seq<Group>)
    requires start.checkpointEvery > 0 && a.summaries == b.summaries
    requires forall g :: g in groups ==> g.shardId in a.summaries
    ensures Due(start, a, groups) == Due(start, b, groups)
  {
    if groups != [] {
      DueSame(start, a, b, groups[1..]);
    }
  }

  lemma {:induction false} DueNothing(start: Start, ctx: Context, groups: seq<Group>)
    requires start.checkpointEvery > 0
    requires forall g :: g in groups ==>
               g.shardId in ctx.summaries && ctx.summaries[g.shardId].generation == start.maxWindows
    ensures Due(start, ctx, groups) == 0
  {
    if groups != [] {
      DueNothing(start, ctx, groups[1..]);
    }
  }

  ghost predicate Balanced(start: Start, d: Drive, total: int)
    requires start.checkpointEvery > 0
  {
    && ShardsTracked(start, d.node.ctx)
    && AllShardsStarted(d.node.ctx)
    && d.node.ctx.checkpointGeneration + Due(start, d.node.ctx, start.groups) == total
  }

  lemma ResultConserves(start: Start, d: Drive, mail: Mail, total: int)
    requires ValidStart(start) && GroupsFit(start) && d.node.ctx.checkpointGeneration < U64_MAX
    requires Balanced(start, d, total) && DriveStep(start, d, mail).1 == Running
    requires mail.Message? && mail.message.Result? && MailFits(start, d.node.ctx, mail, Gapless)
    requires Accepts(start, d.node.ctx, mail.peer, mail.message.aggregate)
    requires ShardsTracked(start, DriveStep(start, d, mail).0.node.ctx)
    ensures Balanced(start, DriveStep(start, d, mail).0, total)
  {
    var ctx, next, a := d.node.ctx, DriveStep(start, d, mail).0.node.ctx, mail.message.aggregate;
    AcceptedContext(start, d, mail.peer, a, mail.env);
    DueAfterAccepted(start, ctx, mail.peer, a);
    DueSame(start, RecordAggregate(ctx, a), next, start.groups);
  }

  lemma DueAfterAccepted(start: Start, ctx: Context, peer: NodeId, a: Aggregate)
    requires GroupsFit(start) && start.checkpointEvery > 0 && ShardsTracked(start, ctx)
    requires Accepts(start, ctx, peer, a) && Fits(Gapless, ctx, a)
    ensures (forall g :: g in start.groups ==> g.shardId in ctx.summaries)
    ensures Due(start, RecordAggregate(ctx, a), start.groups)
            == Due(start, ctx, start.groups) - if a.window % start.checkpointEvery == 0 then 1 else 0
  {
    TrackedGroups(start, ctx);
    FindSame(start.groups, ctx.groups, a.groupId);
    DueAfter(start, ctx, a, start.groups);
  }

  /** Checkpoints taken plus checkpoints owed is conserved by every step of the loop. */
  lemma StepConserves(start: Start, d: Drive, mail: Mail, total: int)
    requires ValidStart(start) && GroupsFit(start) && DriveInv(start, d)
    requires Balanced(start, d, total) && d.node.ctx.checkpointGeneration < U64_MAX
    requires DriveStep(start, d, mail).1 == Running
    requires d.node.ctx.role == Coordinator && d.node.live && MailFits(start, d.node.ctx, mail, Gapless)
    ensures Balanced(start, DriveStep(start, d, mail).0, total)
  {
    var ctx := d.node.ctx;
    var next := DriveStep(start, d, mail).0.node.ctx;
    StepKeeps(start, d, mail);
    if AcceptsMail(start, ctx, mail) {
      ResultConserves(start, d, mail, total);
    } else {
      QuietStep(start, d, mail);
      DueSame(start, ctx, next, start.groups);
    }
  }

  lemma {:induction false} DueAtLeastZero(start: Start, ctx: Context, groups: seq<Group>)
    requires start.checkpointEvery > 0
    requires forall g :: g in groups ==>
               g.shardId in ctx.summaries && ctx.summaries[g.shardId].generation <= start.maxWindows
    ensures Due(start, ctx, groups) >= 0
  {
    if groups != [] {
      DueAtLeastZero(start, ctx, groups[1..]);
      DivLe(ctx.summaries[groups[0].shardId].generation, start.maxWindows, start.checkpointEvery);
    }
  }

  /** Without gaps, what a balanced loop still takes is what its groups owe. */
  lemma {:induction false} TakenIsOwed(start: Start, d: Drive, mailbox: seq<Mail>, last: Env, total: int)
    requires ValidStart(start) && GroupsFit(start) && DriveInv(start, d)
    requires Balanced(start, d, total) && total < U64_MAX
    requires d.node.ctx.role == Coordinator && d.node.live && Arrives(start, d, mailbox, Gapless)
    requires DriveLoop(start, d, mailbox, last).1 == Finished
    ensures d.node.ctx.checkpointGeneration + Taken(start, d, mailbox) == total
    decreases |mailbox|
  {
    if |d.completed| >= |start.groups| {
      NothingOwed(start, d, total);
    } else {
      StepOwes(start, d, mailbox[0], total);
      StepKeepsRole(start, d, mailbox[0]);
      TakenIsOwed(start, DriveStep(start, d, mailbox[0]).0, mailbox[1..], last, total);
    }
  }

  lemma NothingOwed(start: Start, d: Drive, total: int)
    requires ValidStart(start) && GroupsFit(start) && DriveInv(start, d) && Balanced(start, d, total)
    requires |d.completed| >= |start.groups|
    ensures d.node.ctx.checkpointGeneration == total
  {
    CompletedMeansFinal(start, d.node.ctx);
    DueNothing(start, d.node.ctx, start.groups);
  }

  lemma StepOwes(start: Start, d: Drive, mail: Mail, total: int)
    requires ValidStart(start) && GroupsFit(start) && DriveInv(start, d)
    requires Balanced(start, d, total) && total < U64_MAX && DriveStep(start, d, mail).1 == Running
    requires d.node.ctx.role == Coordinator && d.node.live && MailFits(start, d.node.ctx, mail, Gapless)
    ensures var next := DriveStep(start, d, mail).0;
            && DriveInv(start, next) && Balanced(start, next, total)
            && next.node.ctx.checkpointGeneration
               == d.node.ctx.checkpointGeneration + TakenBy(start, d.node.ctx, mail)
  {
    DueAtLeastZero(start, d.node.ctx, start.groups);
    StepKeeps(start, d, mail);
    StepCounts(start, d, mail);
    StepConserves(start, d, mail, total);
  }

  /**
   A coordinator that takes over with every shard started and misses no result
   ends committed exactly when the checkpoints it inherited and the ones its
   groups still owe, plus the closing one, reach the final generation. The answer
   is fixed by the recovered state alone: no interleaving changes it.
   */
  lemma RecoveredJobCommitsIff(start: Start, d: Drive, mailbox: seq<Mail>, last: Env, total: int)
    requires ValidStart(start) && GroupsFit(start) && DriveInv(start, d)
    requires Balanced(start, d, total) && total < U64_MAX
    requires d.node.ctx.role == Coordinator && d.node.live
    requires Arrives(start, d, mailbox, Gapless)
    requires DriveLoop(start, d, mailbox, last).1 == Finished
    ensures Committed(start, DriveLoop(start, d, mailbox, last).0) <==> total + 1 >= FinalCheckpointGeneration(start)
  {
    TakenIsOwed(start, d, mailbox, last, total);
    ArrivesWeaker(start, d, mailbox, Aligned, Gapless);
    FinishedJobIsCommittedIff(start, d, mailbox, last);
  }

  // ----- why the order matters

  function OneGroup(): Start {
    Start(1, 0, 1, 1, 9, 3, 1, true, [1], [Group(0, 0, [1], 1)], [ShardEntry(0, Summary(0, 0, [1]))], 0)
  }

  /**
   If the first results of a group are lost and only window 3 of 3 arrives, the
   loop accepts it and reports success without a final checkpoint.
   */
  lemma LostResultsSkipTheFinalCheckpoint()
    ensures var quiet := Env(true, true, true, 0);
            var late := Aggregate(1, 1, 1, 9, 3, 0, 0, 3, Summary(3, 0, [1]));
            var (end, outcome) := DriveLoop(OneGroup(), Enter(OneGroup(), FreshNode(OneGroup(), Coordinator)),
                                            [Message(1, Result(late), quiet)], quiet);
            outcome == Finished && !end.node.ctx.finalCommitted
  {
    var start := OneGroup();
    var quiet := Env(true, true, true, 0);
    var late := Aggregate(1, 1, 1, 9, 3, 0, 0, 3, Summary(3, 0, [1]));
    var d := Enter(start, FreshNode(start, Coordinator));
    assert start.shards[..0] == [];
    var shard0 := map[0 := Summary(0, 0, [1])];
    assert d.node.ctx.summaries == shard0;
    assert d.completed == {};
    var (next, _) := AggregateStep(start, d, 1, late, quiet);
    AcceptedContext(start, d, 1, late, quiet);
    var (end, _) := Finish(start, next, quiet);
    CommitFacts(start, next.node, quiet);
  }

  // ----- when the loop does finish

  predicate AllWell(env: Env) { env.diskOk && env.checkpointOk && env.quorumOk }

  /** Every entry that is read is some group's next result, and nothing goes wrong while it is handled. */
  ghost predicate Smooth(start: Start, d: Drive, mailbox: seq<Mail>)
    requires start.checkpointEvery > 0
    decreases |mailbox|
  {
    |d.completed| >= |start.groups| || mailbox == []
    || var mail := mailbox[0];
       && mail.Message? && mail.message.Result? && mail.peer != d.node.ctx.coordinator && AllWell(mail.env)
       && Accepts(start, d.node.ctx, mail.peer, mail.message.aggregate)
       && Fits(Gapless, d.node.ctx, mail.message.aggregate)
       && Smooth(start, DriveStep(start, d, mail).0, mailbox[1..])
  }

  /** Windows the groups still have to report. */
  function Remaining(start: Start, ctx: Context): int
    requires forall g :: g in start.groups ==> g.shardId in ctx.summaries
  {
    Due(start.(checkpointEvery := 1), ctx, start.groups)
  }

  lemma TrackedGroups(start: Start, ctx: Context)
    requires ShardsTracked(start, ctx)
    ensures forall g :: g in start.groups ==> g.shardId in ctx.summaries
  {
    forall g | g in start.groups ensures g.shardId in ctx.summaries {
      assert g.shardId in GroupShards(start.groups);
    }
  }

  lemma CommitSucceeds(start: Start, node: Node, env: Env, s: ShardId)
    requires start.checkpointEvery > 0 && AllWell(env) && s in node.ctx.summaries
    ensures CommitCheckpoint(start, node, env).1
  {
    ListingFacts(node.ctx.summaries, s);
  }

  lemma ResultRuns(start: Start, d: Drive, peer: NodeId, a: Aggregate, env: Env)
    requires start.checkpointEvery > 0 && Accepts(start, d.node.ctx, peer, a) && AllWell(env)
    ensures AggregateStep(start, d, peer, a, env).1 == Running
  {
    var recorded := Persist(start, d.node.(ctx := RecordAggregate(d.node.ctx, a)), true);
    CommitSucceeds(start, recorded, env, a.shardId);
  }

  lemma {:induction false} NoneRemaining(start: Start, ctx: Context, groups: seq<Group>)
    requires forall g :: g in groups ==>
               g.shardId in ctx.summaries && ctx.summaries[g.shardId].generation <= start.maxWindows
    requires Due(start.(checkpointEvery := 1), ctx, groups) <= 0
    ensures forall g :: g in groups ==> ctx.summaries[g.shardId].generation == start.maxWindows
  {
    if groups != [] {
      DueAtLeastZero(start.(checkpointEvery := 1), ctx, groups[1..]);
      NoneRemaining(start, ctx, groups[1..]);
    }
  }

  lemma AllDoneCompletes(start: Start, ctx: Context)
    requires GroupsFit(start) && ShardsTracked(start, ctx)
    requires forall g :: g in start.groups ==>
               g.shardId in ctx.summaries && ctx.summaries[g.shardId].generation == start.maxWindows
    ensures |AlreadyComplete(start, ctx)| >= |start.groups|
  {
    IdsCount(start.groups);
    assert AlreadyComplete(start, ctx) == Ids(start.groups);
  }

  /** A result takes one window off what remains. */
  lemma ResultProgresses(start: Start, d: Drive, mail: Mail)
    requires ValidStart(start) && GroupsFit(start) && ShardsTracked(start, d.node.ctx)
    requires mail.Message? && mail.message.Result? && DriveStep(start, d, mail).1 == Running
    requires Accepts(start, d.node.ctx, mail.peer, mail.message.aggregate)
    requires Fits(Gapless, d.node.ctx, mail.message.aggregate)
    requires ShardsTracked(start, DriveStep(start, d, mail).0.node.ctx)
    ensures (forall g :: g in start.groups ==>
               g.shardId in d.node.ctx.summaries && g.shardId in DriveStep(start, d, mail).0.node.ctx.summaries)
    ensures Remaining(start, DriveStep(start, d, mail).0.node.ctx) == Remaining(start, d.node.ctx) - 1
  {
    var ctx, next, a := d.node.ctx, DriveStep(start, d, mail).0.node.ctx, mail.message.aggregate;
    TrackedGroups(start, ctx);
    TrackedGroups(start, next);
    AcceptedContext(start, d, mail.peer, a, mail.env);
    FindSame(start.groups, ctx.groups, a.groupId);
    DueAfter(start.(checkpointEvery := 1), ctx, a, start.groups);
    DueSame(start.(checkpointEvery := 1), RecordAggregate(ctx, a), next, start.groups);
  }

  lemma {:induction false} SmoothArrives(start: Start, d: Drive, mailbox: seq<Mail>)
    requires start.checkpointEvery > 0 && Smooth(start, d, mailbox)
    ensures Arrives(start, d, mailbox, Gapless)
    decreases |mailbox|
  {
    if |d.completed| < |start.groups| && mailbox != [] {
      SmoothArrives(start, DriveStep(start, d, mailbox[0]).0, mailbox[1..]);
    }
  }

  lemma FinishRuns(start: Start, d: Drive, last: Env)
    requires ValidStart(start) && GroupsFit(start) && ShardsTracked(start, d.node.ctx) && AllWell(last)
    ensures Finish(start, d, last).1 == Finished
  {
    TrackedGroups(start, d.node.ctx);
    assert start.groups[0] in start.groups;
    CommitSucceeds(start, d.node, last, start.groups[0].shardId);
  }

  lemma {:induction false} SmoothJobEnds(start: Start, d: Drive, mailbox: seq<Mail>, last: Env)
    requires ValidStart(start) && GroupsFit(start) && DriveInv(start, d)
    requires d.node.ctx.role == Coordinator && d.node.live
    requires Smooth(start, d, mailbox) && AllWell(last)
    requires (forall g :: g in start.groups ==> g.shardId in d.node.ctx.summaries)
    requires |mailbox| >= Remaining(start, d.node.ctx)
    ensures DriveLoop(start, d, mailbox, last).1 == Finished
    decreases |mailbox|
  {
    if |d.completed| >= |start.groups| {
      FinishRuns(start, d, last);
    } else if mailbox == [] {
      NoneRemaining(start, d.node.ctx, start.groups);
      AllDoneCompletes(start, d.node.ctx);
    } else {
      var mail := mailbox[0];
      ResultRuns(start, d, mail.peer, mail.message.aggregate, mail.env);
      StepKeeps(start, d, mail);
      StepKeepsRole(start, d, mail);
      ResultProgresses(start, d, mail);
      SmoothJobEnds(start, DriveStep(start, d, mail).0, mailbox[1..], last);
    }
  }

  /**
   However the results of the groups interleave, a fresh job whose writes and
   acknowledgements succeed finishes, with everything committed, once it has been
   sent as many results in order as its groups have windows altogether.
   */
  lemma SmoothJobCommits(start: Start, mailbox: seq<Mail>, last: Env)
    requires ValidStart(start) && FreshLayout(start) && AllWell(last)
    requires Smooth(start, Enter(start, FreshNode(start, Coordinator)), mailbox)
    requires |mailbox| >= |start.groups| * start.maxWindows
    ensures var (end, outcome) := DriveLoop(start, Enter(start, FreshNode(start, Coordinator)), mailbox, last);
            outcome == Finished && Committed(start, end)
  {
    var d := Enter(start, FreshNode(start, Coordinator));
    FreshJobQualifies(start);
    TrackedGroups(start, d.node.ctx);
    OverlayFresh(start.shards);
    AllRemaining(start, d.node.ctx, start.groups);
    SmoothJobEnds(start, d, mailbox, last);
    SmoothArrives(start, d, mailbox);
    FreshJobIsCommitted(start, mailbox, last);
  }

  lemma {:induction false} AllRemaining(start: Start, ctx: Context, groups: seq<Group>)
    requires forall g :: g in groups ==> g.shardId in ctx.summaries && ctx.summaries[g.shardId].generation == 0
    ensures Due(start.(checkpointEvery := 1), ctx, groups) == |groups| * start.maxWindows
  {
    if groups != [] {
      AllRemaining(start, ctx, groups[1..]);
      var n := |groups| - 1;
      assert (n + 1) * start.maxWindows == n * start.maxWindows + start.maxWindows;
    }
  }

  // ----- the windowed mode

  /** The loop of `drive_coordinator`, one entry of `rounds` per window; false when it stops early. */
  function WindowLoop(start: Start, node: Node, rounds: seq<Round>): (Node, bool)
    requires start.checkpointEvery > 0
    decreases |rounds|
  {
    if node.ctx.window >= start.maxWindows then (node, true)
    else if rounds == [] then (node, false)
    else
      var (next, ok) := CloseWindow(start, node, rounds[0]);
      if ok then WindowLoop(start, next, rounds[1..]) else (next, false)
  }

  /** How many windows in (first, last] end with a checkpoint. */
  function CheckpointsTaken(start: Start, first: nat, last: nat): nat
    requires start.checkpointEvery > 0
    decreases last - first
  {
    if last <= first then 0
    else CheckpointsTaken(start, first + 1, last) + (if CheckpointWindow(start, first + 1) then 1 else 0)
  }

  lemma {:induction false} CheckpointsToEnd(start: Start, first: nat)
    requires start.checkpointEvery > 0 && first < start.maxWindows
    ensures CheckpointsTaken(start, first, start.maxWindows)
            == (start.maxWindows - 1) / start.checkpointEvery + 1 - first / start.checkpointEvery
    decreases start.maxWindows - first
  {
    if first + 1 < start.maxWindows {
      CheckpointsToEnd(start, first + 1);
      NextQuotient(first, start.checkpointEvery);
    }
  }

  /**
   From any window, the windowed mode takes exactly the checkpoints that are
   missing from ceil(max_windows / checkpoint_every), which is the final
   generation, or one more where the latter saturates.
   */
  lemma WindowedCountIsCeiling(start: Start, first: nat)
    requires ValidStart(start) && first < start.maxWindows
    ensures CheckpointsTaken(start, first, start.maxWindows)
            == FinalCheckpointGeneration(start) + (if CeilingFits(start) then 0 else 1) - first / start.checkpointEvery
  {
    CheckpointsToEnd(start, first);
    FinalIsCeilingIff(start);
    var n, e := FinalCheckpointGeneration(start), start.checkpointEvery;
    if CeilingFits(start) {
      CeilingIs(start.maxWindows, e, n);
    } else {
      SaturatedFinal(start);
      CeilingIs(start.maxWindows, e, n + 1);
    }
  }

  lemma SaturatedFinal(start: Start)
    requires ValidStart(start) && !CeilingFits(start)
    ensures var n, e := FinalCheckpointGeneration(start), start.checkpointEvery;
            n * e < start.maxWindows <= (n + 1) * e
  {
    FinalIsCeilingIff(start);
    var n: int, e: int := FinalCheckpointGeneration(start), start.checkpointEvery;
    QuotientOf(U64_MAX, e);
    assert (n + 1) * e == n * e + e;
  }

  lemma CeilingIs(w: nat, e: nat, n: int)
    requires e > 0 && w > 0 && (n - 1) * e < w <= n * e
    ensures n == (w - 1) / e + 1
  {
    assert n * e == (n - 1) * e + e;
    DivModIs(w - 1, e, n - 1, w - 1 - (n - 1) * e);
  }

  lemma CloseWindowFacts(start: Start, node: Node, round: Round)
    requires start.checkpointEvery > 0 && node.ctx.window < start.maxWindows
    requires CloseWindow(start, node, round).1
    ensures var next := CloseWindow(start, node, round).0;
            && next.ctx.window == node.ctx.window + 1
            && next.ctx.term == node.ctx.term
            && next.ctx.checkpointGeneration
               == (if CheckpointWindow(start, node.ctx.window + 1) then SatAdd(node.ctx.checkpointGeneration, 1)
                   else node.ctx.checkpointGeneration)
            && next.ctx.summaries == Overlay(node.ctx.summaries, round.results)
            && next.disk == Some(Publish(start, next.ctx))
  {
  }

  /** A windowed job that finishes has taken every due checkpoint, and its record on disk is current. */
  lemma {:induction false} WindowLoopCounts(start: Start, node: Node, rounds: seq<Round>)
    requires start.checkpointEvery > 0 && node.ctx.window <= start.maxWindows
    requires node.ctx.checkpointGeneration + (start.maxWindows - node.ctx.window) <= U64_MAX
    requires WindowLoop(start, node, rounds).1
    ensures var end := WindowLoop(start, node, rounds).0;
            && end.ctx.window == start.maxWindows && end.ctx.term == node.ctx.term
            && end.ctx.checkpointGeneration
               == node.ctx.checkpointGeneration + CheckpointsTaken(start, node.ctx.window, start.maxWindows)
            && (node.disk == Some(Publish(start, node.ctx)) ==> end.disk == Some(Publish(start, end.ctx)))
    decreases |rounds|
  {
    if node.ctx.window < start.maxWindows {
      CloseWindowFacts(start, node, rounds[0]);
      WindowLoopCounts(start, CloseWindow(start, node, rounds[0]).0, rounds[1..]);
    }
  }

  /**
   A windowed job entered with one checkpoint per completed interval (none, for a
   fresh job) ends with exactly ceil(max_windows / checkpoint_every) of them.
   */
  lemma WindowedJobCount(start: Start, node: Node, rounds: seq<Round>)
    requires ValidStart(start) && node.ctx.window < start.maxWindows
    requires node.ctx.checkpointGeneration == node.ctx.window / start.checkpointEvery
    requires WindowLoop(start, node, rounds).1
    ensures var n := WindowLoop(start, node, rounds).0.ctx.checkpointGeneration;
            && (n - 1) * start.checkpointEvery < start.maxWindows <= n * start.checkpointEvery
            && (n == FinalCheckpointGeneration(start) <==> CeilingFits(start))
  {
    QuotientAtMost(node.ctx.window, start.checkpointEvery);
    WindowLoopCounts(start, node, rounds);
    WindowedCountIsCeiling(start, node.ctx.window);
    FinalIsCeilingIff(start);
    if !CeilingFits(start) {
      SaturatedFinal(start);
    }
  }

  lemma QuotientAtMost(w: nat, e: nat)
    requires e > 0
    ensures 0 <= w / e <= w
  {
    QuotientBounds(w, e, 0, w);
  }
}

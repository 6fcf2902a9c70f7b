/**
 Why the uniqueness theorem needs its hypothesis: a voter grants every term
 above its own without looking at the vote it already gave, so an ordinary run
 of the smallest job can crown two coordinators of one term.
 */
module TrainingSplitBrain {
  import opened Machine
  import opened TrainingModel
  import opened TrainingSteps
  import opened TrainingElection

  const QUIET := Env(true, true, true, 0)

  /** Four workers in two groups, laid out as `make_groups` does. */
  function FourWorkers(): Start {
    Start(1, 0, 1, 1, 9, 4, 2, true, [1, 2, 3, 4],
          [Group(0, 0, [1, 3], 1), Group(1, 1, [2, 4], 2)],
          [ShardEntry(0, Summary(0, 0, [1, 3])), ShardEntry(1, Summary(0, 0, [2, 4]))], 0)
  }

  function Idle(): Node { FreshNode(FourWorkers(), Worker) }

  function Request(candidate: NodeId): ElectionRequest { ElectionRequest(1, candidate, 2, 1, 9) }

  function Granted(voter: NodeId, candidate: NodeId): SentBallot {
    SentBallot(voter, candidate, Vote(1, voter, 2, candidate, 2, true))
  }

  function Voted(candidate: NodeId): Node {
    Idle().(ctx := Idle().ctx.(votedTerm := 2, votedCandidate := Some(candidate)))
  }

  function Standing(failed: set<NodeId>, votes: set<NodeId>): Node {
    Idle().(ctx := Idle().ctx.(failed := failed), campaign := Some(Campaign(2, 0, 1, 0, votes)))
  }

  /** A worker asked for its vote in term 2 grants it, whatever it granted before. */
  lemma GrantStep(node: Node, voter: NodeId, candidate: NodeId)
    requires voter in {1, 2} && candidate in {3, 4}
    requires node == Idle() || node == Voted(3)
    ensures var ask := Deliver(candidate, Election(Request(candidate)), QUIET);
            && Step(FourWorkers(), voter, node, ask) == Voted(candidate)
            && BallotsSent(FourWorkers(), voter, node, ask) == {Granted(voter, candidate)}
            && SelfBacking(FourWorkers(), voter, node, ask) == {}
  {
  }

  lemma LoseStep()
    ensures Step(FourWorkers(), 4, Idle(), PeerLost(3, {}, QUIET)) == Idle().(ctx := Idle().ctx.(failed := {3}))
  {
  }

  /** Worker 3 leads no group and is the lowest such worker; 4 stands too once it has lost 3. */
  lemma StandStep()
    ensures Step(FourWorkers(), 3, Idle(), PeerLost(0, {}, QUIET)) == Standing({0}, {3})
    ensures Step(FourWorkers(), 4, Idle().(ctx := Idle().ctx.(failed := {3})), PeerLost(0, {}, QUIET))
            == Standing({0, 3}, {4})
  {
    var start := FourWorkers();
    var three := Idle().ctx.(failed := {0});
    assert three.groups[0].aggregator == 1 && three.groups[1].aggregator == 2;
    assert 3 in Eligible(start, three, true);
    assert {3} + {0} == {0, 3};
    var four := Idle().ctx.(failed := {0, 3});
    assert four.groups[0].aggregator == 1 && four.groups[1].aggregator == 2;
    assert 4 in Eligible(start, four, true);
  }

  lemma CountSteps(me: NodeId, failed: set<NodeId>)
    requires me in {3, 4}
    ensures Step(FourWorkers(), me, Standing(failed, {me}), Deliver(1, Ballot(Granted(1, me).vote), QUIET))
            == Standing(failed, {me, 1})
    ensures var vote := Deliver(2, Ballot(Granted(2, me).vote), QUIET);
            var won := Step(FourWorkers(), me, Standing(failed, {me, 1}), vote);
            won.live && won.ctx.role == Coordinator && won.ctx.term == 2
  {
    assert {me} + {1} == {me, 1};
    assert |{me, 1}| == 2;
    assert {me, 1} + {2} == {me, 1, 2};
    assert |{me, 1, 2}| == 3;
  }

  function Script(): seq<Event> {
    [Event(4, PeerLost(3, {}, QUIET)),
     Event(3, PeerLost(0, {}, QUIET)),
     Event(4, PeerLost(0, {}, QUIET)),
     Event(1, Deliver(3, Election(Request(3)), QUIET)),
     Event(2, Deliver(3, Election(Request(3)), QUIET)),
     Event(1, Deliver(4, Election(Request(4)), QUIET)),
     Event(2, Deliver(4, Election(Request(4)), QUIET)),
     Event(3, Deliver(1, Ballot(Granted(1, 3).vote), QUIET)),
     Event(3, Deliver(2, Ballot(Granted(2, 3).vote), QUIET)),
     Event(4, Deliver(1, Ballot(Granted(1, 4).vote), QUIET)),
     Event(4, Deliver(2, Ballot(Granted(2, 4).vote), QUIET))]
  }

  /** The nodes before each event of the script, and after the last one. */
  function Cast(i: nat): map<NodeId, Node> {
    var three := if i <= 1 then Idle() else if i <= 7 then Standing({0}, {3})
                 else if i == 8 then Standing({0}, {3, 1})
                 else Step(FourWorkers(), 3, Standing({0}, {3, 1}), Deliver(2, Ballot(Granted(2, 3).vote), QUIET));
    var four := if i == 0 then Idle() else if i <= 2 then Idle().(ctx := Idle().ctx.(failed := {3}))
                else if i <= 9 then Standing({0, 3}, {4})
                else if i == 10 then Standing({0, 3}, {4, 1})
                else Step(FourWorkers(), 4, Standing({0, 3}, {4, 1}), Deliver(2, Ballot(Granted(2, 4).vote), QUIET));
    var one := if i <= 3 then Idle() else if i <= 5 then Voted(3) else Voted(4);
    var two := if i <= 4 then Idle() else if i <= 6 then Voted(3) else Voted(4);
    map[1 := one, 2 := two, 3 := three, 4 := four]
  }

  /** The node of event `i` moves from its part in `Cast(i)` to its part in `Cast(i + 1)`; the others stand still. */
  ghost predicate Follows(i: nat)
    requires i < 11
  {
    var e := Script()[i];
    && e.node in Cast(i)
    && Cast(i + 1) == Cast(i)[e.node := Step(FourWorkers(), e.node, Cast(i)[e.node], e.input)]
  }

  lemma CastStands(i: nat)
    requires i < 3
    ensures Follows(i)
  {
    LoseStep();
    StandStep();
  }

  lemma CastGrants(i: nat)
    requires 3 <= i < 7
    ensures Follows(i)
    ensures var e := Script()[i];
            BallotsSent(FourWorkers(), e.node, Cast(i)[e.node], e.input) == {Granted(e.node, e.input.peer)}
  {
    var node, peer := GrantEvent(i);
    GrantStep(Cast(i)[node], node, peer);
  }

  lemma GrantEvent(i: nat) returns (node: NodeId, peer: NodeId)
    requires 3 <= i < 7
    ensures node in {1, 2} && peer in {3, 4}
    ensures Script()[i] == Event(node, Deliver(peer, Election(Request(peer)), QUIET))
    ensures node in Cast(i) && (Cast(i)[node] == Idle() || Cast(i)[node] == Voted(3))
    ensures Cast(i + 1) == Cast(i)[node := Voted(peer)]
  {
    node, peer := if i == 3 || i == 5 then 1 else 2, if i <= 4 then 3 else 4;
    assert Cast(i + 1)[node] == Voted(peer);
  }

  lemma CastCounts(i: nat)
    requires 7 <= i < 11
    ensures Follows(i)
  {
    if i <= 8 {
      CountSteps(3, {0});
    } else {
      CountSteps(4, {0, 3});
    }
  }

  lemma CastStep(i: nat)
    requires i < 11
    ensures Follows(i)
  {
    if i < 3 {
      CastStands(i);
    } else if i < 7 {
      CastGrants(i);
    } else {
      CastCounts(i);
    }
  }

  /** The ballot event `i` grants. */
  function GrantAt(i: nat): SentBallot {
    Granted(if i == 3 || i == 5 then 1 else 2, if i <= 4 then 3 else 4)
  }

  function SentBefore(i: nat): set<SentBallot> { set m | 3 <= m < 7 && m < i :: GrantAt(m) }

  function Scene(i: nat): (c: Cluster)
    requires i <= 11
    ensures c.nodes == Cast(i) && c.ballots == SentBefore(i)
  {
    if i == 0 then Cluster(Cast(0), SentBefore(0), {}, {})
    else
      ScriptShape(i - 1);
      ClusterStep(FourWorkers(), Scene(i - 1), Script()[i - 1]).(nodes := Cast(i), ballots := SentBefore(i))
  }

  lemma SentAt(i: nat)
    requires i < 11
    ensures var e := Script()[i];
            && e.node in Cast(i)
            && BallotsSent(FourWorkers(), e.node, Cast(i)[e.node], e.input) == if 3 <= i < 7 then {GrantAt(i)} else {}
  {
    ScriptShape(i);
    if 3 <= i < 7 {
      CastGrants(i);
      GrantShape(i);
    }
  }

  lemma GrantShape(i: nat)
    requires 3 <= i < 7
    ensures var e := Script()[i];
            e.input.Deliver? && Granted(e.node, e.input.peer) == GrantAt(i)
  {
  }

  lemma SentGrows(i: nat)
    ensures SentBefore(i + 1) == SentBefore(i) + if 3 <= i < 7 then {GrantAt(i)} else {}
  {
  }

  lemma SceneIsStep(i: nat)
    requires i < 11
    ensures Script()[i].node in Cast(i) && Scene(i + 1) == ClusterStep(FourWorkers(), Scene(i), Script()[i])
  {
    CastStep(i);
    SentAt(i);
    SentGrows(i);
  }

  lemma SceneAuthentic(i: nat)
    requires i < 11
    ensures Authentic(Scene(i), Script()[i])
  {
    ScriptShape(i);
    if i >= 7 {
      BallotAnswers(i);
      assert GrantAt(i - 4) in SentBefore(i);
    }
  }

  /** Every event names a node of the cast, nobody writes to itself, and ballots come last. */
  lemma ScriptShape(i: nat)
    requires i < 11
    ensures var e := Script()[i];
            && e.node in Cast(i)
            && (e.input.Deliver? ==> e.input.peer != e.node && (e.input.message.Ballot? <==> i >= 7))
            && (e.input.Deliver? && e.input.message.Election? <==> 3 <= i < 7)
            && (i >= 7 ==> e.input.Deliver?)
  {
    assert Script()[i].node in {1, 2, 3, 4};
  }

  /** The ballot delivered by event `i` is the one granted by event `i - 4`. */
  lemma BallotAnswers(i: nat)
    requires 7 <= i < 11
    ensures var e := Script()[i];
            && e.input.Deliver? && e.input.message.Ballot?
            && SentBallot(e.input.peer, e.node, e.input.message.vote) == GrantAt(i - 4)
  {
  }

  lemma SceneMoves(i: nat)
    requires i < 11
    ensures Move(FourWorkers(), Scene(i), Script()[i], Scene(i + 1))
  {
    SceneAuthentic(i);
    SceneIsStep(i);
  }

  lemma OpeningScene()
    ensures ValidStart(FourWorkers()) && Initial(FourWorkers(), Scene(0))
  {
  }

  lemma FinalScene()
    ensures var last := Cast(11);
            && last[3].live && last[3].ctx.role == Coordinator && last[3].ctx.term == 2
            && last[4].live && last[4].ctx.role == Coordinator && last[4].ctx.term == 2
  {
    CountSteps(3, {0});
    CountSteps(4, {0, 3});
  }

  /** A run of the four-worker job that ends with workers 3 and 4 both coordinating term 2. */
  lemma TwoCoordinatorsOfOneTerm() returns (states: seq<Cluster>, events: seq<Event>)
    ensures ValidStart(FourWorkers()) && IsRun(FourWorkers(), states, events)
    ensures var last := states[|states| - 1].nodes;
            && 3 in last && last[3].live && last[3].ctx.role == Coordinator && last[3].ctx.term == 2
            && 4 in last && last[4].live && last[4].ctx.role == Coordinator && last[4].ctx.term == 2
  {
    events := Script();
    states := seq(12, i requires 0 <= i < 12 => Scene(i));
    forall i | 0 <= i < 11
      ensures Move(FourWorkers(), states[i], events[i], states[i + 1])
    {
      SceneMoves(i);
      assert states[i] == Scene(i) && states[i + 1] == Scene(i + 1);
    }
    FinalScene();
    OpeningScene();
  }
}

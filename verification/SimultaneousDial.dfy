/**
 Two peers dial each other at the same moment. Each runs one task per
 connection; the tasks of both ends interleave freely with closes travelling
 between the ends, writers stopping and connections failing.
 */
module SimultaneousDial {
  import opened Machine
  import opened PeerConnections

  datatype End = Lower | Higher

  /** The connection dialed by the end with the lower node id, and the other one. */
  datatype Conn = FromLower | FromHigher

  datatype Stage =
    | Handshaking
    | Probed(snapshot: Option<(ConnectionId, nat)>)
    | Running
    | Closed

  /** One end: its map entry, its two tasks, the connections it has seen closed and the writers that stopped. */
  datatype EndState = EndState(
    entry: Option<Conn>, fromLower: Stage, fromHigher: Stage, closed: set<Conn>, stopped: set<Conn>)

  /** `failed` holds connections lost to anything but the duplicate rule: the network, a goodbye, a limit. */
  datatype Duel = Duel(lower: EndState, higher: EndState, failed: set<Conn>)

  datatype Move =
    | Probe(end: End, conn: Conn)
    | Decide(end: End, conn: Conn, pingLost: bool, crowded: bool, tableFull: bool)
    | CleanUp(end: End, conn: Conn)
    | Notice(end: End, conn: Conn)
    | StopWriter(end: End, conn: Conn)
    | Fail(conn: Conn)

  function Id(c: Conn): ConnectionId { if c.FromLower? then 0 else 1 }

  function Other(e: End): End { if e.Lower? then Higher else Lower }

  function At(s: Duel, e: End): EndState { if e.Lower? then s.lower else s.higher }

  function Put(s: Duel, e: End, x: EndState): Duel { if e.Lower? then s.(lower := x) else s.(higher := x) }

  function StageOf(x: EndState, c: Conn): Stage { if c.FromLower? then x.fromLower else x.fromHigher }

  function SetStage(x: EndState, c: Conn, stage: Stage): EndState {
    if c.FromLower? then x.(fromLower := stage) else x.(fromHigher := stage)
  }

  /** An end dials its own connection and prefers dialing iff it is the lower one. */
  predicate Outbound(e: End, c: Conn) { e.Lower? <==> c.FromLower? }

  predicate Preferred(e: End) { e.Lower? }

  /** What the task of `e` reads from the maps; the negotiated version is `minor`. */
  function Look(x: EndState, e: End, minor: nat): Option<Slot> {
    match x.entry
    case None => None
    case Some(c) => Some(Slot(Id(c), Outbound(e, c), minor, c !in x.stopped, c !in x.closed))
  }

  predicate Enabled(s: Duel, m: Move) {
    match m
    case Probe(e, c) => StageOf(At(s, e), c).Handshaking?
    case Decide(e, c, _, _, _) => StageOf(At(s, e), c).Probed?
    case CleanUp(e, c) => StageOf(At(s, e), c).Running? && (c in At(s, e).closed || c in s.failed)
    case Notice(e, c) => c in At(s, Other(e)).closed || c in s.failed
    case StopWriter(e, c) => c in At(s, e).closed || c in s.failed
    case Fail(_) => true
  }

  function ConnOf(id: ConnectionId): Conn { if id == 0 then FromLower else FromHigher }

  function Resolution(x: EndState, e: End, c: Conn, minor: nat, pingLost: bool): PeerConnections.Resolution
    requires StageOf(x, c).Probed?
  {
    Resolve(Look(x, e, minor), Preferred(e), Outbound(e, c), StageOf(x, c).snapshot, pingLost)
  }

  /** The end's task of `c` after the second look; the second result tells that a limit turned it away. */
  function DecideAt(
    x: EndState, e: End, c: Conn, minor: nat, pingLost: bool, crowded: bool, tableFull: bool): (EndState, bool)
    requires StageOf(x, c).Probed?
  {
    var resolution := Resolution(x, e, c, minor, pingLost);
    var away := SetStage(x, c, Closed).(closed := x.closed + {c});
    match Outcome(resolution, crowded, tableFull)
    case Rejected => (away, false)
    case AtLimit => (away, true)
    case TableFull => (away.(entry := if resolution.replaced.Some? then None else x.entry), true)
    case Installed(replaced) =>
      var gone := if replaced.Some? then {ConnOf(replaced.value)} else {};
      (SetStage(x, c, Running).(entry := Some(c), closed := x.closed + gone), false)
  }

  function Apply(s: Duel, m: Move, minor: nat): Duel
    requires Enabled(s, m)
  {
    match m
    case Probe(e, c) =>
      var x := At(s, e);
      Put(s, e, SetStage(x, c, Probed(Snapshot(Look(x, e, minor), Preferred(e), Outbound(e, c)))))
    case Decide(e, c, pingLost, crowded, tableFull) =>
      var (x, refused) := DecideAt(At(s, e), e, c, minor, pingLost, crowded, tableFull);
      Put(s, e, x).(failed := if refused then s.failed + {c} else s.failed)
    case CleanUp(e, c) =>
      var x := SetStage(At(s, e), c, Closed);
      Put(s, e, x.(entry := if x.entry == Some(c) then None else x.entry, stopped := x.stopped + {c}))
    case Notice(e, c) => Put(s, e, At(s, e).(closed := At(s, e).closed + {c}))
    case StopWriter(e, c) => Put(s, e, At(s, e).(stopped := At(s, e).stopped + {c}))
    case Fail(c) => s.(failed := s.failed + {c})
  }

  const BEGIN := Duel(
    EndState(None, Handshaking, Handshaking, {}, {}),
    EndState(None, Handshaking, Handshaking, {}, {}), {})

  ghost predicate IsRun(states: seq<Duel>, moves: seq<Move>, minor: nat) {
    && |states| == |moves| + 1
    && states[0] == BEGIN
    && forall i :: 0 <= i < |moves| ==>
         Enabled(states[i], moves[i]) && states[i + 1] == Apply(states[i], moves[i], minor)
  }

  // ----- what every interleaving keeps

  predicate Decided(stage: Stage) { stage.Running? || stage.Closed? }

  /** One end of a duel in which the lower end's connection has not failed. */
  ghost predicate EndGood(x: EndState, failed: set<Conn>) {
    && FromLower !in x.closed
    && FromLower !in x.stopped
    && !x.fromLower.Closed?
    && (x.fromLower.Running? ==> x.entry == Some(FromLower))
    && (x.entry == Some(FromLower) ==> x.fromLower.Running?)
    && (x.entry == Some(FromHigher) ==> x.fromHigher.Running?)
    && (x.fromLower.Probed? ==> x.fromLower.snapshot.None?)
    && (x.fromHigher.Probed? ==> x.fromHigher.snapshot.None?)
    && (FromHigher in x.stopped ==> FromHigher in x.closed + failed)
    && (x.fromHigher.Closed? ==> FromHigher in x.closed + failed)
    && (x.fromHigher.Running? && x.entry != Some(FromHigher) ==> FromHigher in x.closed + failed)
  }

  ghost predicate Good(s: Duel) {
    FromLower !in s.failed ==> EndGood(s.lower, s.failed) && EndGood(s.higher, s.failed)
  }

  lemma DecideKeeps(
    x: EndState, e: End, c: Conn, minor: nat, pingLost: bool, crowded: bool, tableFull: bool, failed: set<Conn>)
    requires EndGood(x, failed) && StageOf(x, c).Probed?
    ensures var (next, refused) := DecideAt(x, e, c, minor, pingLost, crowded, tableFull);
            var failed' := if refused then failed + {c} else failed;
            FromLower in failed' || EndGood(next, failed')
  {
  }

  lemma ApplyKeeps(s: Duel, m: Move, minor: nat)
    requires Good(s) && Enabled(s, m)
    ensures Good(Apply(s, m, minor))
  {
    if FromLower !in s.failed && m.Decide? {
      DecideKeeps(At(s, m.end), m.end, m.conn, minor, m.pingLost, m.crowded, m.tableFull, s.failed);
    }
  }

  lemma {:induction false} RunGood(states: seq<Duel>, moves: seq<Move>, minor: nat, i: nat)
    requires IsRun(states, moves, minor) && i < |states|
    ensures Good(states[i])
  {
    if i > 0 {
      RunGood(states, moves, minor, i - 1);
      ApplyKeeps(states[i - 1], moves[i - 1], minor);
    }
  }

  /**
   Unless it fails on its own, the connection dialed by the lower node is never
   closed by either end, never dropped by a late cleanup, and no end ever
   considers it stale.
   */
  lemma CanonicalNeverClosed(states: seq<Duel>, moves: seq<Move>, minor: nat, s: Duel, e: End)
    requires IsRun(states, moves, minor) && s in states && FromLower !in s.failed
    ensures FromLower !in At(s, e).closed
    ensures Decided(At(s, e).fromLower) ==> At(s, e).entry == Some(FromLower)
    ensures At(s, e).fromLower.Probed? ==> At(s, e).fromLower.snapshot.None?
  {
    var i :| 0 <= i < |states| && states[i] == s;
    RunGood(states, moves, minor, i);
  }

  /** Once both ends have decided both handshakes they hold the same connection, and the other one is gone. */
  lemma EndsAgree(states: seq<Duel>, moves: seq<Move>, minor: nat, s: Duel)
    requires IsRun(states, moves, minor) && s in states && FromLower !in s.failed
    requires Decided(s.lower.fromLower) && Decided(s.lower.fromHigher)
    requires Decided(s.higher.fromLower) && Decided(s.higher.fromHigher)
    ensures s.lower.entry == Some(FromLower) && s.higher.entry == Some(FromLower)
    ensures FromHigher in s.failed || (FromHigher in s.lower.closed && FromHigher in s.higher.closed)
  {
    var i :| 0 <= i < |states| && states[i] == s;
    RunGood(states, moves, minor, i);
  }
}

/**
 The per-peer connection maps of the network layer and the rule that picks one
 connection when two peers hold several (crates/network/src/lib.rs).
 */
module PeerConnections {
  import opened Machine

  type NodeId = nat
  type ConnectionId = nat

  /** What the lock holder sees of the connection installed for a peer. */
  datatype Slot = Slot(id: ConnectionId, outbound: bool, minor: nat, senderOpen: bool, connectionOpen: bool)

  datatype Resolution = Reject | Install(replaced: Option<ConnectionId>)

  /** The first look, taken before the ping: the installed connection if both it and the new one are canonical. */
  function Snapshot(existing: Option<Slot>, preferred: bool, outbound: bool): Option<(ConnectionId, nat)> {
    if existing.None? || !existing.value.senderOpen || !existing.value.connectionOpen
       || existing.value.outbound != preferred || outbound != preferred
    then None
    else Some((existing.value.id, existing.value.minor))
  }

  /** The second look, after an unanswered ping is known as `pingLost`. */
  function Resolve(existing: Option<Slot>, preferred: bool, outbound: bool,
                   snapshot: Option<(ConnectionId, nat)>, pingLost: bool): Resolution
  {
    if existing.None? || !existing.value.senderOpen then Install(None)
    else
      var current := existing.value;
      var stale := snapshot.Some? && snapshot.value.1 >= 2 && pingLost && snapshot.value.0 == current.id;
      if !current.connectionOpen || stale then Install(Some(current.id))
      else if current.outbound != preferred && outbound == preferred then Install(Some(current.id))
      else Reject
  }

  predicate IsLive(slot: Slot) { slot.senderOpen && slot.connectionOpen }

  /**
   The two looks together. A live connection in the preferred direction gives way
   only to another in that direction, and only if it is the one the first look saw,
   speaks a version with pings and left the ping unanswered. A live one in the other
   direction gives way exactly to one in the preferred direction, a closed one to
   any, and where nothing is installed there is nothing to replace.
   */
  lemma ReplacedIff(
    earlier: Option<Slot>, existing: Option<Slot>, preferred: bool, outbound: bool, pingLost: bool)
    ensures var r := Resolve(existing, preferred, outbound, Snapshot(earlier, preferred, outbound), pingLost);
            if existing.None? || !existing.value.senderOpen then r == Install(None)
            else
              var current := existing.value;
              var unanswered := && pingLost && earlier.Some? && IsLive(earlier.value) && earlier.value.id == current.id
                                && earlier.value.outbound == preferred && earlier.value.minor >= 2;
              var gives := if !current.connectionOpen then true
                           else outbound == preferred && (current.outbound != preferred || unanswered);
              r == if gives then Install(Some(current.id)) else Reject
  {
  }

  const MAX_LEARNED_PEERS := 2048

  /** What is kept of an announcement. */
  datatype PeerRecord = PeerRecord(announcedAt: u64, expiresAt: u64, payload: nat)

  predicate IsFresher(previous: PeerRecord, next: PeerRecord) {
    next.announcedAt > previous.announcedAt
    || (next.announcedAt == previous.announcedAt && next.expiresAt >= previous.expiresAt)
  }

  function LiveRecords(records: map<NodeId, PeerRecord>, now: u64): map<NodeId, PeerRecord> {
    map p | p in records && records[p].expiresAt >= now :: records[p]
  }

  /** A new peer in a full table makes the expired records go. */
  function MakeRoom(records: map<NodeId, PeerRecord>, peer: NodeId, now: u64): map<NodeId, PeerRecord> {
    if peer !in records && |records| >= MAX_LEARNED_PEERS then LiveRecords(records, now) else records
  }

  predicate TableIsFull(records: map<NodeId, PeerRecord>, peer: NodeId, now: u64) {
    peer !in records && |MakeRoom(records, peer, now)| >= MAX_LEARNED_PEERS
  }

  function Learn(records: map<NodeId, PeerRecord>, peer: NodeId, record: PeerRecord): map<NodeId, PeerRecord> {
    if peer !in records || IsFresher(records[peer], record) then records[peer := record] else records
  }

  datatype Verdict = Rejected | AtLimit | TableFull | Installed(replaced: Option<ConnectionId>)

  /** What becomes of a finished handshake: the duplicate rule, then the two limits. */
  function Outcome(resolution: Resolution, atLimit: bool, tableFull: bool): Verdict {
    match resolution
    case Reject => Rejected
    case Install(replaced) =>
      if replaced.None? && atLimit then AtLimit else if tableFull then TableFull else Installed(replaced)
  }

  /** The maps of the peer table, under one lock. Channels and connections are named by the id of their handshake. */
  class PeerMaps {
    const me: NodeId
    const maxConnections: nat

    var senders: map<NodeId, ConnectionId>
    var connections: map<NodeId, ConnectionId>
    var connectionIds: map<NodeId, ConnectionId>
    var directions: map<NodeId, bool>
    var versions: map<NodeId, nat>
    var records: map<NodeId, PeerRecord>

    /** The maps always describe one connection per peer, and never more peers than the limit. */
    ghost predicate Valid()
      reads this
    {
      && senders == connections == connectionIds
      && directions.Keys == senders.Keys
      && versions.Keys == senders.Keys
      && |senders| <= maxConnections
    }

    /** The installed connection of `peer`, given which channels and connections are still open. */
    function View(peer: NodeId, openSenders: set<ConnectionId>, openConnections: set<ConnectionId>): Option<Slot>
      reads this
      requires Valid()
    {
      if peer !in senders then None
      else Some(Slot(connectionIds[peer], directions[peer], versions[peer],
                     senders[peer] in openSenders, connections[peer] in openConnections))
    }

    constructor (me: NodeId, maxConnections: nat)
      ensures Valid() && this.me == me && this.maxConnections == maxConnections
      ensures senders == map[] && records == map[]
    {
      this.me, this.maxConnections, records := me, maxConnections, map[];
      senders, connections, connectionIds, directions, versions := map[], map[], map[], map[], map[];
    }

    method Forget(peer: NodeId)
      requires Valid()
      modifies this
      ensures Valid() && peer !in senders && records == old(records)
      ensures senders == old(senders) - {peer} && directions == old(directions) - {peer}
              && versions == old(versions) - {peer}
      ensures old(peer in senders) ==> |senders| == old(|senders|) - 1
    {
      SizeWithout(senders, peer);
      senders := senders - {peer};
      connections := connections - {peer};
      connectionIds := connectionIds - {peer};
      directions := directions - {peer};
      versions := versions - {peer};
    }

    method Store(peer: NodeId, id: ConnectionId, outbound: bool, minor: nat)
      requires Valid() && |senders| < maxConnections
      modifies this
      ensures Valid() && records == old(records)
      ensures senders == old(senders)[peer := id]
      ensures directions == old(directions)[peer := outbound]
      ensures versions == old(versions)[peer := minor]
    {
      SizeWith(senders, peer, id);
      senders := senders[peer := id];
      connections := connections[peer := id];
      connectionIds := connectionIds[peer := id];
      directions := directions[peer := outbound];
      versions := versions[peer := minor];
    }

    /**
     Install, replace or reject a connection whose handshake has finished. A
     connection that replaces another never meets the connection limit, but a full
     peer table turns it away after the one it replaces is already forgotten.
     */
    method Register(peer: NodeId, id: ConnectionId, outbound: bool, minor: nat, record: PeerRecord, now: u64,
                    openSenders: set<ConnectionId>, openConnections: set<ConnectionId>,
                    snapshot: Option<(ConnectionId, nat)>, pingLost: bool) returns (verdict: Verdict)
      requires Valid()
      modifies this
      ensures Valid()
      ensures verdict ==
              Outcome(Resolve(old(View(peer, openSenders, openConnections)), me < peer, outbound, snapshot, pingLost),
                      old(|senders|) >= maxConnections, TableIsFull(old(records), peer, now))
      ensures verdict.Installed? ==>
                && senders == old(senders)[peer := id]
                && directions == old(directions)[peer := outbound]
                && versions == old(versions)[peer := minor]
                && records == Learn(MakeRoom(old(records), peer, now), peer, record)
      ensures verdict.TableFull? ==>
                var found := old(View(peer, openSenders, openConnections));
                var replaced := Resolve(found, me < peer, outbound, snapshot, pingLost).replaced;
                var gone := if replaced.Some? then {peer} else {};
                && senders == old(senders) - gone && directions == old(directions) - gone
                && versions == old(versions) - gone
                && records == MakeRoom(old(records), peer, now)
      ensures verdict.Rejected? || verdict.AtLimit? ==>
                senders == old(senders) && directions == old(directions) && versions == old(versions)
      ensures verdict.Rejected? ==> records == Learn(old(records), peer, record)
      ensures verdict.AtLimit? ==> records == old(records)
    {
      var decision := Judge(peer, outbound, openSenders, openConnections, snapshot, pingLost);
      if decision.Reject? {
        records := Learn(records, peer, record);
        return Rejected;
      }
      if decision.replaced.Some? {
        Forget(peer);
      }
      if |senders| >= maxConnections {
        return AtLimit;
      }
      var full := LearnPeer(peer, record, now);
      if full {
        return TableFull;
      }
      Store(peer, id, outbound, minor);
      Readd(old(senders), peer, id);
      Readd(old(directions), peer, outbound);
      Readd(old(versions), peer, minor);
      verdict := Installed(decision.replaced);
    }

    /** Make room for the record of a new peer and learn it, unless the table stays full. */
    method LearnPeer(peer: NodeId, record: PeerRecord, now: u64) returns (full: bool)
      modifies this`records
      ensures full <==> TableIsFull(old(records), peer, now)
      ensures records == if full then MakeRoom(old(records), peer, now)
                         else Learn(MakeRoom(old(records), peer, now), peer, record)
    {
      if peer !in records && |records| >= MAX_LEARNED_PEERS {
        records := LiveRecords(records, now);
        if |records| >= MAX_LEARNED_PEERS {
          return true;
        }
      }
      records := Learn(records, peer, record);
      full := false;
    }

    method Judge(peer: NodeId, outbound: bool, openSenders: set<ConnectionId>, openConnections: set<ConnectionId>,
                 snapshot: Option<(ConnectionId, nat)>, pingLost: bool) returns (decision: Resolution)
      requires Valid()
      ensures decision == Resolve(View(peer, openSenders, openConnections), me < peer, outbound, snapshot, pingLost)
      ensures decision.Install? && decision.replaced.Some? ==> peer in senders
    {
      var preferred := me < peer;
      if peer !in senders || senders[peer] !in openSenders {
        return Install(None);
      }
      var replaceClosed := peer !in connections || connections[peer] !in openConnections;
      var stale := snapshot.Some? && snapshot.value.1 >= 2 && pingLost
                   && peer in connectionIds && connectionIds[peer] == snapshot.value.0;
      var keepNew := peer in directions && directions[peer] != preferred && outbound == preferred;
      decision := if replaceClosed || stale || keepNew then Install(Some(connections[peer])) else Reject;
    }

    /** The end of a connection task: it clears the maps only if they still point at this connection. */
    method CleanUp(peer: NodeId, id: ConnectionId) returns (wasCurrent: bool)
      requires Valid()
      modifies this
      ensures Valid() && records == old(records)
      ensures wasCurrent <==> old(peer in connectionIds && connectionIds[peer] == id)
      ensures wasCurrent ==>
                && senders == old(senders) - {peer} && directions == old(directions) - {peer}
                && versions == old(versions) - {peer}
      ensures !wasCurrent ==>
                senders == old(senders) && directions == old(directions) && versions == old(versions)
    {
      wasCurrent := peer in connectionIds && connectionIds[peer] == id;
      if wasCurrent {
        Forget(peer);
      }
    }
  }

  lemma Readd<V>(m: map<NodeId, V>, k: NodeId, v: V)
    ensures (m - {k})[k := v] == m[k := v]
  {
  }

  lemma SizeWithout<V>(m: map<NodeId, V>, k: NodeId)
    ensures |m - {k}| == if k in m then |m| - 1 else |m|
  {
    assert (m - {k}).Keys == m.Keys - {k};
  }

  lemma SizeWith<V>(m: map<NodeId, V>, k: NodeId, v: V)
    ensures |m[k := v]| == if k in m then |m| else |m| + 1
  {
    assert m[k := v].Keys == m.Keys + {k};
  }
}

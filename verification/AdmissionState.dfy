/**
 The ledger as the source keeps it: maps that `LocalSecurityState` updates in
 place. Each method is tied to the function of the same operation in
 `Admission`, whose histories the neighbouring modules reason about.
 */
module AdmissionState {
  import opened Machine
  import opened Admission
  import opened AdmissionHistory
  import opened AdmissionConduct
  import opened AdmissionRelease

  /** `bound_map`: drop first keys until there is room for one more. */
  method BoundMap(m: map<Position, Contribution>, max: nat) returns (r: map<Position, Contribution>)
    ensures r == Bound(m, max)
    ensures r.Keys <= m.Keys && (forall k :: k in r ==> r[k] == m[k])
    ensures |r| == Min(|m|, Max(max - 1, 0)) && forall k, j :: k in m && k !in r && j in r ==> Before(k, j)
  {
    BoundEvicts(m, max);
    r := m;
    while |r| >= max
      invariant Bound(r, max) == Bound(m, max)
      decreases |r|
    {
      if r == map[] {
        break;
      }
      var k := First(r.Keys);
      assert (r - {k}).Keys == r.Keys - {k};
      r := r - {k};
    }
  }

  class LocalSecurityState {
    const policy: Policy

    var replay: map<Position, Contribution>
    var rejected: map<Position, Contribution>
    var latest: map<Stream, Mark>
    var contexts: map<JobId, TrainingContext>
    var quarantined: map<NodeId, u64>

    function Value(): Ledger
      reads this
    {
      Ledger(replay, rejected, latest, contexts, quarantined)
    }

    /** The bounds `validate` demands of a persisted state. */
    ghost predicate Valid()
      reads this
    {
      ValidPolicy(policy) && |replay| <= policy.maxReplay && |rejected| <= policy.maxReplay
    }

    constructor (policy: Policy)
      requires ValidPolicy(policy)
      ensures this.policy == policy && Valid() && Value() == EMPTY
    {
      this.policy := policy;
      replay, rejected, latest, contexts, quarantined := map[], map[], map[], map[], map[];
    }

    method IsQuarantined(peer: NodeId, now: u64) returns (held: bool)
      requires Valid()
      modifies this`quarantined
      ensures Valid() && Value() == Step(policy, old(Value()), Check(now)).0
      ensures held <==> old(peer in quarantined && quarantined[peer] >= now)
    {
      quarantined := Purge(quarantined, now);
      held := peer in quarantined && quarantined[peer] >= now;
    }

    method ObserveContext(context: TrainingContext) returns (outcome: Outcome)
      requires Valid()
      modifies this`contexts
      ensures Valid() && (Value(), outcome) == Admission.ObserveContext(old(Value()), context)
    {
      if context.jobId == 0 || context.branch == 0 || context.planGeneration == 0 || context.generation == 0 {
        return InvalidRecord;
      }
      if context.jobId in contexts {
        var previous := contexts[context.jobId];
        if context.planGeneration < previous.planGeneration || context.generation < previous.generation {
          return StaleTraining;
        }
        if context.planGeneration == previous.planGeneration && context.generation == previous.generation
           && context.branch != previous.branch {
          return TrainingEquivocation;
        }
      }
      contexts := contexts[context.jobId := context];
      outcome := Accepted;
    }

    method Quarantine(peer: NodeId, now: u64)
      requires Valid()
      modifies this`quarantined
      ensures Valid() && Value() == Admission.Quarantine(policy, old(Value()), peer, now)
      ensures forall p :: EntryAfter(policy, old(Value()), Punish(peer, now), Value(), p)
    {
      var until := SatAdd(now, policy.quarantineSeconds);
      if peer in quarantined {
        quarantined := quarantined[peer := Max(quarantined[peer], until)];
      } else {
        quarantined := quarantined[peer := until];
      }
    }

    method AdmitTrainingUpdate(c: Contribution, members: seq<NodeId>, now: u64) returns (outcome: Outcome)
      requires Valid()
      modifies this
      ensures Valid() && (Value(), outcome) == Admit(policy, old(Value()), c, members, now)
      ensures outcome == Accepted <==>
                old(!HeldUntil(Value(), c.worker, now) && Acceptable(policy, Value(), c, members))
      ensures forall p :: EntryAfter(policy, old(Value()), Submit(c, members, now), Value(), p)
    {
      AdmitEffect(policy, Value(), c, members, now);
      if c.worker !in members {
        return UnauthorizedTraining;
      }
      if OutOfBounds(policy, c) {
        return TrainingBounds;
      }
      var key, stream := PositionOf(c), StreamOf(c);
      if (key in replay && replay[key] == c) || (key in rejected && rejected[key] == c) {
        return DuplicateTraining;
      }
      var held := IsQuarantined(c.worker, now);
      if held {
        return Quarantined;
      }
      outcome := ObserveContext(ContextOf(c));
      if outcome != Accepted {
        return;
      }
      if stream in latest && !MarkLe(latest[stream], MarkOf(c)) {
        return StaleTraining;
      }
      outcome := RecordContribution(c, now);
    }

    /** The end of an admission: a taken position is an equivocation, a free one is recorded. */
    method RecordContribution(c: Contribution, now: u64) returns (outcome: Outcome)
      requires Valid()
      modifies this
      ensures Valid() && contexts == old(contexts)
      ensures old(PositionOf(c) in replay) ==>
                var bounded := Bound(old(rejected), policy.maxReplay);
                var noted := if PositionOf(c) in bounded then bounded else bounded[PositionOf(c) := c];
                && outcome == TrainingEquivocation
                && Value() == Admission.Quarantine(policy, old(Value()).(rejected := noted), c.worker, now)
      ensures old(PositionOf(c) !in replay) ==>
                && outcome == Accepted
                && Value() == old(Value()).(replay := Bound(old(replay), policy.maxReplay)[PositionOf(c) := c],
                                            latest := old(latest)[StreamOf(c) := MarkOf(c)])
    {
      var key := PositionOf(c);
      if key in replay {
        rejected := BoundMap(rejected, policy.maxReplay);
        if key !in rejected {
          GrowsByOne(rejected, key, c);
          rejected := rejected[key := c];
        }
        Quarantine(c.worker, now);
        return TrainingEquivocation;
      }
      replay := BoundMap(replay, policy.maxReplay);
      GrowsByOne(replay, key, c);
      replay := replay[key := c];
      latest := latest[StreamOf(c) := MarkOf(c)];
      outcome := Accepted;
    }
  }
}

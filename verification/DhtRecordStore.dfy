/** The record store as an object whose methods change its map in place, tied to the functions of `DhtStore`. */
module DhtRecordStore {
  import opened Machine
  import opened Sorting
  import opened DhtStore
  import opened DhtStoreEffects
  import opened DiverseSelection

  /** 2 to the power 224: dividing a 256-bit owner by it leaves its first four bytes. */
  const TAIL: nat := 0x1_0000_0000_0000_0000_0000_0000_0000_0000_0000_0000_0000_0000_0000_0000

  function OwnerPrefix(r: Record): nat { r.owner / TAIL }

  /** Reading sorts the live records of a key, newest first, one per owner. */
  lemma GotFacts(limits: Limits, records: Records, k: Key, now: u64)
    requires SlotsGood(limits, records)
    ensures var found := Got(records, k, now);
            && DistinctBy(found, OwnerOf) && SortedBy(found, NewestFirst)
            && forall r :: r in found <==> k in records && r in records[k] && r.expiresAt >= now
  {
    var live := LiveOnly(Values(records, k), now);
    LiveFacts(Values(records, k), now);
    SortFacts(live, NewestFirst);
    SortMembers(live, NewestFirst);
    DistinctPermute(live, Got(records, k, now), OwnerOf);
  }

  /** Expiring a store keeps exactly its live records, and no key without one. */
  lemma ExpireHolds(records: Records, now: u64, k: Key, r: Record)
    ensures Holds(Expire(records, now), k, r) <==> Holds(records, k, r) && r.expiresAt >= now
  {
    if k in records {
      LiveFacts(records[k], now);
    }
  }

  class RecordStore {
    const limits: Limits
    var records: Records

    ghost predicate Valid()
      reads this
    {
      ValidLimits(limits) && StoreGood(limits, records)
    }

    constructor (maxRecords: nat, perKey: nat)
      ensures Valid() && records == map[]
      ensures limits == Limits(Max(maxRecords, 1), Max(perKey, 1))
    {
      limits := Limits(Max(maxRecords, 1), Max(perKey, 1));
      records := map[];
    }

    method ExpireAll(now: u64)
      requires Valid()
      modifies this
      ensures Valid() && records == Expire(old(records), now)
      ensures forall k, r :: Holds(records, k, r) <==> Holds(old(records), k, r) && r.expiresAt >= now
      ensures forall k :: k in records ==> records[k] != []
    {
      ExpireGood(limits, records, now);
      forall k, r ensures Holds(Expire(records, now), k, r) <==> Holds(records, k, r) && r.expiresAt >= now {
        ExpireHolds(records, now, k, r);
      }
      records := Expire(records, now);
    }

    /** The eviction loop: one record per pass, until the total is within the bound. */
    method EnforceTotalBound(now: u64)
      requires ValidLimits(limits) && SlotsGood(limits, records)
      modifies this
      ensures Valid() && records == Enforce(Expire(old(records), now), limits.maxRecords)
    {
      ExpireGood(limits, records, now);
      records := Expire(records, now);
      ghost var target := Enforce(records, limits.maxRecords);
      while Total(records) > limits.maxRecords
        invariant SlotsGood(limits, records) && Enforce(records, limits.maxRecords) == target
        decreases Total(records)
      {
        if Places(records) == {} {
          PlacesEmpty(records);
          break;
        }
        EvictsOne(records);
        EvictGood(limits, records);
        var p := Worst(records);
        PlacesIff(records, p);
        var values := records[p.key];
        var index := IndexOfOwner(values, values[p.index].owner);
        var rest := Remove(values, index.value);
        if rest == [] {
          records := records - {p.key};
        } else {
          records := records[p.key := rest];
        }
      }
    }

    method Put(r: Record, now: u64) returns (stored: bool)
      requires Valid()
      modifies this
      ensures Valid() && (records, stored) == DhtStore.Put(limits, old(records), r, now)
      ensures var values := Values(old(records), r.key);
              !stored <==> r.expiresAt < now || Outdated(values, r) || Crowded(values, r, limits.perKey)
    {
      PutAnswerIff(limits, records, r, now);
      StepGood(limits, records, PutOp(r, now));
      if r.expiresAt < now {
        return false;
      }
      var values := Values(records, r.key);
      FileGood(limits, r.key, values, r);
      var existing := IndexOfOwner(values, r.owner);
      if existing.Some? {
        if values[existing.value].sequence >= r.sequence {
          records := records[r.key := values];
          return false;
        }
        records := records[r.key := values[existing.value := r]];
        return true;
      }
      if |values| >= limits.perKey {
        SortFacts(values, Rank);
        values := SortBy(values, Rank);
        if values[0].sequence >= r.sequence {
          records := records[r.key := values];
          return false;
        }
        values := values[1..];
      }
      records := records[r.key := values + [r]];
      EnforceTotalBound(now);
      stored := true;
    }

    method Get(k: Key, now: u64) returns (found: seq<Record>)
      requires Valid()
      modifies this
      ensures Valid() && records == AfterGet(old(records), k, now) && found == Got(old(records), k, now)
      ensures DistinctBy(found, OwnerOf) && SortedBy(found, NewestFirst)
      ensures forall r :: r in found <==> k in old(records) && r in old(records)[k] && r.expiresAt >= now
    {
      GotFacts(limits, records, k, now);
      found := Got(records, k, now);
      StepGood(limits, records, GetOp(k, now));
      if k in records {
        records := records[k := LiveOnly(records[k], now)];
      }
    }

    /** `get_diverse`: as many distinct four-byte owner prefixes as the limit allows. */
    method GetDiverse(k: Key, now: u64, limit: nat) returns (selected: seq<Record>)
      requires Valid()
      modifies this
      ensures Valid() && records == AfterGet(old(records), k, now)
      ensures selected == Diverse(Got(old(records), k, now), limit, OwnerOf, OwnerPrefix)
      ensures |selected| == Min(limit, |Got(old(records), k, now)|) && DistinctBy(selected, OwnerOf)
      ensures |Prefixes(selected, OwnerPrefix)| == Min(limit, |Prefixes(Got(old(records), k, now), OwnerPrefix)|)
    {
      var found := Get(k, now);
      selected := SelectDiverse(found, limit, OwnerOf, OwnerPrefix);
      DiverseFacts(found, limit, OwnerOf, OwnerPrefix);
    }
  }
}

/** The evidence graph as an object whose methods change its list in place, tied to the functions of `EvidenceGraph`. */
module EvidenceState {
  import opened Machine
  import opened EvidenceGraph
  import opened EvidenceOrder
  import opened EvidenceMeaning

  class TrustGraph {
    const policy: Policy
    var entries: seq<Evidence>
    var rejected: u64

    function Value(): Graph
      reads this
    {
      Graph(entries, rejected)
    }

    ghost predicate Valid()
      reads this
    {
      ValidPolicy(policy) && GraphGood(policy, Value())
    }

    constructor (policy: Policy)
      requires ValidPolicy(policy)
      ensures Valid() && this.policy == policy && Value() == Graph([], 0)
    {
      this.policy := policy;
      entries, rejected := [], 0;
    }

    method Insert(e: Evidence, now: u64) returns (outcome: Outcome)
      requires Valid()
      modifies this
      ensures Valid() && (Value(), outcome) == EvidenceGraph.Insert(policy, old(Value()), e, now)
      ensures outcome == Kept ==> rejected == old(rejected) && KeptInto(policy, old(entries), e, entries)
    {
      InsertGood(policy, Value(), e, now);
      InsertEffect(policy, Value(), e, now);
      if Refused(policy, e, now) {
        rejected := SatAdd(rejected, 1);
        return Invalid;
      }
      var known := FindTopic(entries, TopicOf(e));
      if known.Some? {
        if entries[known.value].sequence >= e.sequence {
          rejected := SatAdd(rejected, 1);
          return Stale;
        }
        entries := entries[known.value := e];
        return Kept;
      }
      if |entries| >= policy.maxEvidence {
        var oldest := Oldest(entries);
        entries := entries[..oldest] + entries[oldest + 1..];
      }
      entries := entries + [e];
      outcome := Kept;
    }

    method ExpireAll(now: u64)
      requires Valid()
      modifies this`entries
      ensures Valid() && Value() == Step(policy, old(Value()), ExpireOp(now))
      ensures forall e :: e in entries <==> e in old(entries) && e.expiresAt >= now
    {
      LiveFacts(entries, now);
      entries := LiveOnly(entries, now);
    }

    method CountEndorsements(subject: NodeId, now: u64) returns (accepted: nat)
      ensures accepted == |Endorsers(policy, entries, entries, subject, now)|
    {
      accepted := 0;
      var endorsers := {};
      for i := 0 to |entries|
        invariant endorsers == Endorsers(policy, entries, entries[..i], subject, now)
        invariant accepted == |endorsers|
      {
        assert entries[..i + 1][..i] == entries[..i];
        var e := entries[i];
        if LiveAbout(e, subject, now) && e.kind.Endorsement? {
          if e.issuer == subject || e.issuer in endorsers || |endorsers| >= policy.maxEndorsements {
            continue;
          }
          if HasDirect(entries, e.issuer, now) {
            endorsers := endorsers + {e.issuer};
            accepted := accepted + 1;
          }
        }
      }
      assert entries[..|entries|] == entries;
    }

    /**
     The counts are the sizes of the sets of statements and issuers they are about,
     and score, quarantine and maturity are what these counts call for.
     */
    method Decision(subject: NodeId, now: u64) returns (d: EvidenceGraph.Decision)
      requires Valid()
      ensures d == Decide(policy, Value(), subject, now)
      ensures d.counts.direct == |Matching(entries, Direct(subject, now))|
      ensures d.counts.successes == |Matching(entries, Success(subject, now))|
      ensures d.counts.failures == |Matching(entries, Failure(subject, now))|
      ensures d.counts.localSuccesses == |Matching(entries, LocalSuccess(policy, subject, now))|
      ensures d.counts.localFailures == |Matching(entries, LocalFailure(policy, subject, now))|
      ensures d.counts.reports == Min(|Matching(entries, Report(subject, now))|, policy.maxIndirectReports)
      ensures d.counts.issuers == |Issuers(entries, subject, now)|
      ensures d.counts.endorsements == Min(policy.maxEndorsements, |Qualified(entries, entries, subject, now)|)
      ensures Judged(policy, d) && d.rejectedEvidence == rejected
    {
      var direct := CountEntries(Direct(subject, now));
      var successes := CountEntries(Success(subject, now));
      var failures := CountEntries(Failure(subject, now));
      var localSuccesses := CountEntries(LocalSuccess(policy, subject, now));
      var localFailures := CountEntries(LocalFailure(policy, subject, now));
      var reports := CountEntries(Report(subject, now));
      var issuers := IndependentIssuers(entries, subject, now);
      var endorsements := CountEndorsements(subject, now);
      EndorsersCount(policy, entries, entries, subject, now);
      IssuersAre(entries, subject, now);
      var counts := Counts(direct, successes, failures, localSuccesses, localFailures,
                           Min(reports, policy.maxIndirectReports), |issuers|, endorsements);
      d := Judge(policy, counts, rejected);
      JudgeMeans(policy, counts, rejected);
    }

    method CountEntries(wanted: Evidence -> bool) returns (n: nat)
      requires Valid()
      ensures n == CountIf(entries, wanted) == |Matching(entries, wanted)|
    {
      CountIsSize(entries, wanted);
      n := 0;
      for i := 0 to |entries|
        invariant n == CountIf(entries[..i], wanted)
      {
        assert entries[..i + 1][..i] == entries[..i];
        if wanted(entries[i]) {
          n := n + 1;
        }
      }
      assert entries[..|entries|] == entries;
    }
  }
}

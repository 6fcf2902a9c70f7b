/**
 Evaluator selection (`select_evaluators` in crates/intelligence/src/security.rs):
 a first pass that respects a cap per source group, and a second pass that fills
 up regardless of it.
 */
module EvaluatorSelection {
  import opened Machine
  import opened Sorting
  import opened DiverseSelection
  import EvidenceGraph

  /** Node ids are 256 bits. */
  const NODE_SPAN: nat := 0x1_0000_0000_0000_0000_0000_0000_0000_0000_0000_0000_0000_0000_0000_0000_0000_0000

  type NodeId = x: nat | x < NODE_SPAN

  datatype Candidate = Candidate(node: NodeId, maturity: EvidenceGraph.Maturity, successes: nat, group: nat)

  function NodeOf(c: Candidate): NodeId { c.node }

  predicate Eligible(c: Candidate) { !c.maturity.Degraded? && !c.maturity.Quarantined? }

  function EligibleOf(s: seq<Candidate>, wanted: bool): seq<Candidate> {
    if s == [] then []
    else EligibleOf(s[..|s| - 1], wanted) + if Eligible(s[|s| - 1]) == wanted then [s[|s| - 1]] else []
  }

  function CountGroup(s: seq<Candidate>, g: nat): nat {
    if s == [] then 0 else CountGroup(s[..|s| - 1], g) + if s[|s| - 1].group == g then 1 else 0
  }

  function FirstPass(s: seq<Candidate>, count: nat, cap: nat): seq<Candidate> {
    if s == [] then []
    else
      var before, last := FirstPass(s[..|s| - 1], count, cap), s[|s| - 1];
      if |before| >= count || CountGroup(before, last.group) >= cap then before else before + [last]
  }

  function Chosen(s: seq<Candidate>, count: nat, cap: nat): seq<Candidate> {
    Fill(FirstPass(s, count, cap), s, count, NodeOf)
  }

  function Groups(s: seq<Candidate>): set<nat> { set c | c in s :: c.group }

  function Nodes(s: seq<Candidate>): seq<NodeId> {
    if s == [] then [] else Nodes(s[..|s| - 1]) + [s[|s| - 1].node]
  }

  function Unchosen(s: seq<Candidate>, selected: seq<Candidate>): seq<NodeId> {
    if s == [] then []
    else
      Unchosen(s[..|s| - 1], selected)
      + if Has(selected, NodeOf, s[|s| - 1].node) then [] else [s[|s| - 1].node]
  }

  // ----- the order of the candidates

  function MaturityRank(m: EvidenceGraph.Maturity): nat {
    match m
    case New => 0
    case Observed => 1
    case Established => 2
    case TrustedLocally => 3
    case Degraded => 4
    case Quarantined => 5
  }

  /** The sort key as one number: maturity downward, seeded hash, successes up to three downward, node. */
  function RankBy(hash: NodeId -> u64): Candidate -> int {
    (c: Candidate) =>
      (((5 - MaturityRank(c.maturity)) * (U64_MAX + 1) + hash(c.node)) * 4 + (3 - Min(c.successes, 3))) * NODE_SPAN
      + c.node
  }

  ghost predicate RanksBefore(hash: NodeId -> u64, a: Candidate, b: Candidate) {
    if a.maturity != b.maturity then MaturityRank(a.maturity) > MaturityRank(b.maturity)
    else if hash(a.node) != hash(b.node) then hash(a.node) < hash(b.node)
    else if Min(a.successes, 3) != Min(b.successes, 3) then Min(a.successes, 3) > Min(b.successes, 3)
    else a.node < b.node
  }

  lemma Lexicographic(a: int, b: int, span: int, x: int, y: int)
    requires 0 <= x < span && 0 <= y < span
    ensures a * span + x < b * span + y <==> a < b || (a == b && x < y)
  {
    if a < b {
      MulLe(a + 1, b, span);
    } else if b < a {
      MulLe(b + 1, a, span);
    }
  }

  /** The number orders candidates as the source's tuple does. */
  lemma RankIsLexicographic(hash: NodeId -> u64, a: Candidate, b: Candidate)
    ensures RankBy(hash)(a) < RankBy(hash)(b) <==> RanksBefore(hash, a, b)
  {
    var ma, mb := 5 - MaturityRank(a.maturity), 5 - MaturityRank(b.maturity);
    var sa, sb := 3 - Min(a.successes, 3), 3 - Min(b.successes, 3);
    var ha, hb := ma * (U64_MAX + 1) + hash(a.node), mb * (U64_MAX + 1) + hash(b.node);
    Lexicographic(ma, mb, U64_MAX + 1, hash(a.node), hash(b.node));
    Lexicographic(mb, ma, U64_MAX + 1, hash(b.node), hash(a.node));
    Lexicographic(ha, hb, 4, sa, sb);
    Lexicographic(hb, ha, 4, sb, sa);
    Lexicographic(ha * 4 + sa, hb * 4 + sb, NODE_SPAN, a.node, b.node);
  }

  /** `hash` is the seeded digest of a node; everything else is computed. */
  method SelectEvaluators(candidates: seq<Candidate>, count: nat, maxPerGroup: nat, hash: NodeId -> u64)
    returns (selected: seq<Candidate>, sourceGroups: nat, rejected: seq<NodeId>)
    ensures var ordered := SortBy(EligibleOf(candidates, true), RankBy(hash));
            && selected == Chosen(ordered, count, Max(maxPerGroup, 1))
            && sourceGroups == |Groups(FirstPass(ordered, count, Max(maxPerGroup, 1)))|
            && rejected == Nodes(EligibleOf(candidates, false)) + Unchosen(ordered, selected)
  {
    var ordered := SortBy(EligibleOf(candidates, true), RankBy(hash));
    selected, sourceGroups := TakeWithinCap(ordered, count, Max(maxPerGroup, 1));
    selected := FillUp(selected, ordered, count);
    rejected := Nodes(EligibleOf(candidates, false)) + Unchosen(ordered, selected);
  }

  method TakeWithinCap(ordered: seq<Candidate>, count: nat, cap: nat)
    returns (selected: seq<Candidate>, sourceGroups: nat)
    requires cap > 0
    ensures selected == FirstPass(ordered, count, cap) && sourceGroups == |Groups(selected)|
  {
    selected := [];
    var groups: map<nat, nat> := map[];
    for i := 0 to |ordered|
      invariant selected == FirstPass(ordered[..i], count, cap)
      invariant Tallies(groups, selected)
    {
      assert ordered[..i + 1][..i] == ordered[..i];
      if |selected| >= count {
        FullPass(ordered, i, count, cap);
        break;
      }
      var c := ordered[i];
      var taken := Tally(groups, c.group);
      TallyPush(groups, selected, c);
      if taken < cap {
        groups := groups[c.group := taken + 1];
        selected := selected + [c];
      }
    }
    assert ordered[..|ordered|] == ordered;
    sourceGroups := |groups.Keys|;
  }

  function Tally(groups: map<nat, nat>, g: nat): nat { if g in groups then groups[g] else 0 }

  ghost predicate Tallies(groups: map<nat, nat>, s: seq<Candidate>) {
    groups.Keys == Groups(s) && forall g :: Tally(groups, g) == CountGroup(s, g)
  }

  lemma TallyPush(groups: map<nat, nat>, s: seq<Candidate>, c: Candidate)
    requires Tallies(groups, s)
    ensures Tally(groups, c.group) == CountGroup(s, c.group)
    ensures Tallies(groups[c.group := Tally(groups, c.group) + 1], s + [c])
  {
    GroupsPush(s, c);
    var next := groups[c.group := Tally(groups, c.group) + 1];
    forall g ensures Tally(next, g) == CountGroup(s + [c], g) {
      assert Tally(groups, g) == CountGroup(s, g);
    }
  }

  lemma GroupsPush(s: seq<Candidate>, c: Candidate)
    ensures Groups(s + [c]) == Groups(s) + {c.group}
    ensures forall g :: CountGroup(s + [c], g) == CountGroup(s, g) + if c.group == g then 1 else 0
  {
    assert (s + [c])[..|s|] == s;
    assert forall x :: x in s + [c] <==> x in s || x == c;
  }

  method FillUp(chosen: seq<Candidate>, ordered: seq<Candidate>, count: nat) returns (selected: seq<Candidate>)
    ensures selected == Fill(chosen, ordered, count, NodeOf)
  {
    selected := chosen;
    for i := 0 to |ordered|
      invariant selected == Fill(chosen, ordered[..i], count, NodeOf)
    {
      assert ordered[..i + 1][..i] == ordered[..i];
      if |selected| >= count {
        FilledStays(chosen, ordered, i, count, NodeOf);
        break;
      }
      if !Has(selected, NodeOf, ordered[i].node) {
        selected := selected + [ordered[i]];
      }
    }
    assert ordered[..|ordered|] == ordered;
  }

  lemma {:induction false} FullPass(s: seq<Candidate>, i: nat, count: nat, cap: nat)
    requires i <= |s| && |FirstPass(s[..i], count, cap)| >= count
    ensures FirstPass(s, count, cap) == FirstPass(s[..i], count, cap)
  {
    if i == |s| {
      assert s[..i] == s;
    } else {
      var before := s[..|s| - 1];
      assert before[..i] == s[..i];
      FullPass(before, i, count, cap);
    }
  }

  // ----- what the groups can supply under the cap

  /** The sum over `groups` of min(group size, cap). */
  function Supply(groups: set<nat>, s: seq<Candidate>, cap: nat): nat
    decreases |groups|
  {
    if groups == {} then 0
    else
      var g := Least(groups);
      Min(CountGroup(s, g), cap) + Supply(groups - {g}, s, cap)
  }

  lemma SupplyFirst(groups: set<nat>, s: seq<Candidate>, cap: nat, g: nat)
    requires IsLeast(groups, g)
    ensures Supply(groups, s, cap) == Min(CountGroup(s, g), cap) + Supply(groups - {g}, s, cap)
  {
    assert Least(groups) == g;
  }

  lemma {:induction false} SupplyWithout(groups: set<nat>, s: seq<Candidate>, cap: nat, g: nat)
    requires g in groups
    ensures Supply(groups, s, cap) == Min(CountGroup(s, g), cap) + Supply(groups - {g}, s, cap)
    decreases |groups|
  {
    var l := Least(groups);
    SupplyFirst(groups, s, cap, l);
    if l != g {
      SupplyWithout(groups - {l}, s, cap, g);
      assert IsLeast(groups - {g}, l);
      SupplyFirst(groups - {g}, s, cap, l);
      assert groups - {l} - {g} == groups - {g} - {l};
    }
  }

  lemma {:induction false} SupplyMonotone(groups: set<nat>, a: seq<Candidate>, b: seq<Candidate>, capA: nat, capB: nat)
    requires forall g :: g in groups ==> Min(CountGroup(a, g), capA) <= Min(CountGroup(b, g), capB)
    ensures Supply(groups, a, capA) <= Supply(groups, b, capB)
    decreases |groups|
  {
    if groups != {} {
      SupplyMonotone(groups - {Least(groups)}, a, b, capA, capB);
    }
  }

  lemma CountSnoc(s: seq<Candidate>, c: Candidate, g: nat)
    ensures CountGroup(s + [c], g) == CountGroup(s, g) + if c.group == g then 1 else 0
  {
    assert (s + [c])[..|s|] == s;
  }

  lemma {:induction false} CountAtMost(s: seq<Candidate>, g: nat)
    ensures CountGroup(s, g) <= |s|
  {
    if s != [] {
      CountAtMost(s[..|s| - 1], g);
    }
  }

  /** One more candidate adds to the supply iff its group is below the cap. */
  lemma SupplySnoc(groups: set<nat>, s: seq<Candidate>, c: Candidate, cap: nat)
    requires c.group in groups
    ensures Supply(groups, s + [c], cap) == Supply(groups, s, cap) + if CountGroup(s, c.group) < cap then 1 else 0
  {
    SupplyWithout(groups, s, cap, c.group);
    SupplyWithout(groups, s + [c], cap, c.group);
    CountSnoc(s, c, c.group);
    SupplySame(groups - {c.group}, s, c, cap);
  }

  lemma {:induction false} SupplySame(groups: set<nat>, s: seq<Candidate>, c: Candidate, cap: nat)
    requires c.group !in groups
    ensures Supply(groups, s + [c], cap) == Supply(groups, s, cap)
    decreases |groups|
  {
    if groups != {} {
      CountSnoc(s, c, Least(groups));
      SupplySame(groups - {Least(groups)}, s, c, cap);
    }
  }

  /** With no effective cap the supply is the number of candidates. */
  lemma {:induction false} SupplyOfAll(groups: set<nat>, s: seq<Candidate>, cap: nat)
    requires Groups(s) <= groups && |s| <= cap
    ensures Supply(groups, s, cap) == |s|
  {
    if s == [] {
      SupplyOfNone(groups, cap);
    } else {
      var before, last := s[..|s| - 1], s[|s| - 1];
      assert s == before + [last];
      assert last.group in Groups(s);
      assert Groups(before) <= Groups(s);
      SupplyOfAll(groups, before, cap);
      SupplySnoc(groups, before, last, cap);
      CountAtMost(before, last.group);
    }
  }

  lemma {:induction false} SupplyOfNone(groups: set<nat>, cap: nat)
    ensures Supply(groups, [], cap) == 0
    decreases |groups|
  {
    if groups != {} {
      SupplyOfNone(groups - {Least(groups)}, cap);
    }
  }

  // ----- the first pass

  /** The first pass takes from every group the candidates below the cap, and their number is the supply. */
  lemma {:induction false} FirstPassFacts(groups: set<nat>, s: seq<Candidate>, count: nat, cap: nat)
    requires Groups(s) <= groups
    ensures var f := FirstPass(s, count, cap);
            && |f| == Min(count, Supply(groups, s, cap))
            && (forall g :: CountGroup(f, g) <= Min(CountGroup(s, g), cap))
            && (|f| < count ==> forall g :: CountGroup(f, g) == Min(CountGroup(s, g), cap))
  {
    if s == [] {
      SupplyOfNone(groups, cap);
    } else {
      var before, last := s[..|s| - 1], s[|s| - 1];
      assert s == before + [last];
      assert last.group in Groups(s);
      assert Groups(before) <= Groups(s);
      FirstPassFacts(groups, before, count, cap);
      SupplySnoc(groups, before, last, cap);
      FirstPassStep(before, last, count, cap);
    }
  }

  lemma FirstPassStep(before: seq<Candidate>, last: Candidate, count: nat, cap: nat)
    requires var f := FirstPass(before, count, cap);
             && |f| <= count
             && (forall g :: CountGroup(f, g) <= Min(CountGroup(before, g), cap))
             && (|f| < count ==> forall g :: CountGroup(f, g) == Min(CountGroup(before, g), cap))
    ensures var f := FirstPass(before + [last], count, cap);
            && |f| <= count
            && (forall g :: CountGroup(f, g) <= Min(CountGroup(before + [last], g), cap))
            && (|f| < count ==> forall g :: CountGroup(f, g) == Min(CountGroup(before + [last], g), cap))
            && |f| == |FirstPass(before, count, cap)|
                      + if |FirstPass(before, count, cap)| < count && CountGroup(before, last.group) < cap then 1 else 0
  {
    var f := FirstPass(before, count, cap);
    FirstPassSnoc(before, last, count, cap);
    GroupsPush(before, last);
    GroupsPush(f, last);
  }

  lemma FirstPassSnoc(before: seq<Candidate>, last: Candidate, count: nat, cap: nat)
    ensures var f := FirstPass(before, count, cap);
            FirstPass(before + [last], count, cap)
            == f + if |f| >= count || CountGroup(f, last.group) >= cap then [] else [last]
  {
    var s := before + [last];
    assert s[..|s| - 1] == before;
  }

  lemma {:induction false} FirstPassMembers(s: seq<Candidate>, count: nat, cap: nat)
    ensures forall x :: x in FirstPass(s, count, cap) ==> x in s
    ensures DistinctBy(s, NodeOf) ==> DistinctBy(FirstPass(s, count, cap), NodeOf)
  {
    if s != [] {
      var before, last := s[..|s| - 1], s[|s| - 1];
      assert s == before + [last];
      FirstPassMembers(before, count, cap);
      var f := FirstPass(before, count, cap);
      if DistinctBy(s, NodeOf) {
        forall i | 0 <= i < |f| ensures NodeOf(f[i]) != NodeOf(last) {
          assert f[i] in before;
        }
      }
    }
  }

  // ----- the whole selection

  function GroupNodes(s: seq<Candidate>, g: nat): set<NodeId> { set c | c in s && c.group == g :: c.node }

  lemma {:induction false} GroupNodesCount(s: seq<Candidate>, g: nat)
    requires DistinctBy(s, NodeOf)
    ensures |GroupNodes(s, g)| == CountGroup(s, g)
  {
    if s == [] {
      assert GroupNodes(s, g) == {};
    } else {
      var before, last := s[..|s| - 1], s[|s| - 1];
      assert s == before + [last];
      GroupNodesCount(before, g);
      forall c | c in before ensures c.node != last.node {
        var i :| 0 <= i < |before| && before[i] == c;
        assert NodeOf(s[i]) != NodeOf(s[|s| - 1]);
      }
      GroupNodesPush(before, last, g);
    }
  }

  lemma GroupNodesPush(s: seq<Candidate>, last: Candidate, g: nat)
    requires forall c :: c in s ==> c.node != last.node
    ensures |GroupNodes(s + [last], g)| == |GroupNodes(s, g)| + if last.group == g then 1 else 0
  {
    assert GroupNodes(s + [last], g) == GroupNodes(s, g) + if last.group == g then {last.node} else {};
    assert last.node !in GroupNodes(s, g);
  }

  lemma SubsetCounts(a: seq<Candidate>, b: seq<Candidate>, g: nat)
    requires DistinctBy(a, NodeOf) && DistinctBy(b, NodeOf) && forall x :: x in a ==> x in b
    ensures CountGroup(a, g) <= CountGroup(b, g)
  {
    GroupNodesCount(a, g);
    GroupNodesCount(b, g);
    SubsetSize(GroupNodes(a, g), GroupNodes(b, g));
  }

  lemma ChosenFacts(s: seq<Candidate>, count: nat, cap: nat)
    requires DistinctBy(s, NodeOf)
    ensures var r := Chosen(s, count, cap);
            && FirstPass(s, count, cap) <= r && |r| == Min(count, |s|)
            && DistinctBy(r, NodeOf) && (forall x :: x in r ==> x in s)
  {
    FirstPassFacts(Groups(s), s, count, cap);
    FirstPassMembers(s, count, cap);
    FillFacts(FirstPass(s, count, cap), s, count, NodeOf);
    FullLength(s, count, NodeOf, Chosen(s, count, cap));
  }

  ghost predicate CapKept(s: seq<Candidate>, cap: nat) { forall g :: CountGroup(s, g) <= cap }

  lemma EnoughKeepsCap(s: seq<Candidate>, count: nat, cap: nat)
    requires DistinctBy(s, NodeOf) && Supply(Groups(s), s, cap) >= Min(count, |s|)
    ensures CapKept(Chosen(s, count, cap), cap)
  {
    ChosenFacts(s, count, cap);
    FirstPassFacts(Groups(s), s, count, cap);
    var f, r := FirstPass(s, count, cap), Chosen(s, count, cap);
    assert |f| >= |r|;
    assert f == r;
  }

  lemma TooFewBreakCap(s: seq<Candidate>, count: nat, cap: nat)
    requires DistinctBy(s, NodeOf) && CapKept(Chosen(s, count, cap), cap)
    ensures Supply(Groups(s), s, cap) >= Min(count, |s|)
  {
    var r := Chosen(s, count, cap);
    ChosenFacts(s, count, cap);
    forall g | g in Groups(s) ensures Min(CountGroup(r, g), |r|) <= Min(CountGroup(s, g), cap) {
      SubsetCounts(r, s, g);
    }
    SupplyMonotone(Groups(s), r, s, |r|, cap);
    SupplyOfAll(Groups(s), r, |r|);
  }

  /**
   From candidates with distinct nodes the selection takes min(count, available)
   distinct ones, and it exceeds the cap of some group exactly when the groups
   together cannot supply that many within the cap.
   */
  lemma SelectionFacts(s: seq<Candidate>, count: nat, cap: nat)
    requires DistinctBy(s, NodeOf)
    ensures var r := Chosen(s, count, cap);
            && |r| == Min(count, |s|) && DistinctBy(r, NodeOf) && (forall x :: x in r ==> x in s)
            && (CapKept(r, cap) <==> Supply(Groups(s), s, cap) >= Min(count, |s|))
  {
    ChosenFacts(s, count, cap);
    if Supply(Groups(s), s, cap) >= Min(count, |s|) {
      EnoughKeepsCap(s, count, cap);
    } else if CapKept(Chosen(s, count, cap), cap) {
      TooFewBreakCap(s, count, cap);
    }
  }

  // ----- selected and rejected

  lemma {:induction false} EligibleFacts(s: seq<Candidate>, wanted: bool)
    ensures forall c :: c in EligibleOf(s, wanted) <==> c in s && Eligible(c) == wanted
  {
    if s != [] {
      EligibleFacts(s[..|s| - 1], wanted);
      assert s == s[..|s| - 1] + [s[|s| - 1]];
    }
  }

  lemma {:induction false} EligibleDistinct(s: seq<Candidate>, wanted: bool)
    requires DistinctBy(s, NodeOf)
    ensures DistinctBy(EligibleOf(s, wanted), NodeOf)
  {
    if s != [] {
      var before, last := s[..|s| - 1], s[|s| - 1];
      EligibleDistinct(before, wanted);
      EligibleFacts(before, wanted);
      var e := EligibleOf(before, wanted);
      forall i | 0 <= i < |e| ensures NodeOf(e[i]) != NodeOf(last) {
        assert e[i] in before;
      }
    }
  }

  lemma {:induction false} NodesIff(s: seq<Candidate>, n: NodeId)
    ensures n in Nodes(s) <==> exists c :: c in s && c.node == n
  {
    if s != [] {
      NodesIff(s[..|s| - 1], n);
      assert s == s[..|s| - 1] + [s[|s| - 1]];
    }
  }

  lemma {:induction false} UnchosenIff(s: seq<Candidate>, selected: seq<Candidate>, n: NodeId)
    ensures n in Unchosen(s, selected) <==> !Has(selected, NodeOf, n) && exists c :: c in s && c.node == n
  {
    if s != [] {
      UnchosenIff(s[..|s| - 1], selected, n);
      assert s == s[..|s| - 1] + [s[|s| - 1]];
    }
  }

  /** Every candidate is either selected or rejected, and never both. */
  lemma EvaluatorsPartition(candidates: seq<Candidate>, count: nat, cap: nat, order: Candidate -> int, c: Candidate)
    requires DistinctBy(candidates, NodeOf) && c in candidates
    ensures var ordered := SortBy(EligibleOf(candidates, true), order);
            var selected := Chosen(ordered, count, cap);
            var rejected := Nodes(EligibleOf(candidates, false)) + Unchosen(ordered, selected);
            c in selected <==> c.node !in rejected
  {
    var eligible := EligibleOf(candidates, true);
    var ordered := SortBy(eligible, order);
    EligibleFacts(candidates, true);
    EligibleFacts(candidates, false);
    EligibleDistinct(candidates, true);
    SortFacts(eligible, order);
    SortMembers(eligible, order);
    DistinctPermute(eligible, ordered, NodeOf);
    var selected := Chosen(ordered, count, cap);
    ChosenFacts(ordered, count, cap);
    NodesIff(EligibleOf(candidates, false), c.node);
    UnchosenIff(ordered, selected, c.node);
    if Has(selected, NodeOf, c.node) {
      var i :| 0 <= i < |selected| && NodeOf(selected[i]) == c.node;
      assert selected[i] in ordered;
      OneCandidatePerNode(candidates, selected[i], c);
    }
    if c in selected {
      var i :| 0 <= i < |selected| && selected[i] == c;
      assert NodeOf(selected[i]) == c.node;
      if c.node in Nodes(EligibleOf(candidates, false)) {
        var d :| d in EligibleOf(candidates, false) && d.node == c.node;
        OneCandidatePerNode(candidates, d, c);
      }
    }
  }

  lemma OneCandidatePerNode(s: seq<Candidate>, a: Candidate, b: Candidate)
    requires DistinctBy(s, NodeOf) && a in s && b in s && a.node == b.node
    ensures a == b
  {
    var i :| 0 <= i < |s| && s[i] == a;
    var j :| 0 <= j < |s| && s[j] == b;
    SameIndex(s, i, j, NodeOf);
  }

  // ----- who is preferred

  /** Trusted nodes come first, then established, observed and new ones; equal maturities are decided by the seed. */
  lemma MaturityDecides(hash: NodeId -> u64, a: Candidate, b: Candidate)
    requires Eligible(a) && Eligible(b)
    ensures a.maturity.TrustedLocally? && !b.maturity.TrustedLocally? ==> RankBy(hash)(a) < RankBy(hash)(b)
    ensures a.maturity.Established? && (b.maturity.Observed? || b.maturity.New?) ==> RankBy(hash)(a) < RankBy(hash)(b)
    ensures a.maturity.Observed? && b.maturity.New? ==> RankBy(hash)(a) < RankBy(hash)(b)
    ensures a.maturity == b.maturity && hash(a.node) < hash(b.node) ==> RankBy(hash)(a) < RankBy(hash)(b)
  {
    RankIsLexicographic(hash, a, b);
  }

  /** Below the cap and the count, the first pass leaves nobody of a group out. */
  lemma {:induction false} GroupTakenWhole(s: seq<Candidate>, count: nat, cap: nat, c: Candidate)
    requires c in s && |FirstPass(s, count, cap)| < count && CountGroup(FirstPass(s, count, cap), c.group) < cap
    ensures c in FirstPass(s, count, cap)
  {
    var before, last := s[..|s| - 1], s[|s| - 1];
    var f := FirstPass(before, count, cap);
    assert s == before + [last];
    CountSnoc(f, last, c.group);
    if c in before {
      GroupTakenWhole(before, count, cap, c);
    }
  }

  lemma {:induction false} FirstPassInOrder(s: seq<Candidate>, count: nat, cap: nat, i: nat, j: nat)
    requires DistinctBy(s, NodeOf) && i < j < |s| && s[i].group == s[j].group && s[j] in FirstPass(s, count, cap)
    ensures s[i] in FirstPass(s, count, cap)
  {
    var before, last := s[..|s| - 1], s[|s| - 1];
    FirstPassMembers(before, count, cap);
    assert before[i] == s[i];
    if j < |before| {
      assert NodeOf(s[j]) != NodeOf(last);
      assert before[j] == s[j];
      FirstPassInOrder(before, count, cap, i, j);
    } else {
      NotYet(s, NodeOf, FirstPass(before, count, cap));
      assert s[i] in before;
      GroupTakenWhole(before, count, cap, s[i]);
    }
  }

  /** Within a group nobody is selected over a candidate that ranks before. */
  lemma SelectedInOrder(s: seq<Candidate>, count: nat, cap: nat, i: nat, j: nat)
    requires DistinctBy(s, NodeOf) && i < j < |s| && s[i].group == s[j].group && s[j] in Chosen(s, count, cap)
    ensures s[i] in Chosen(s, count, cap)
  {
    var f, r := FirstPass(s, count, cap), Chosen(s, count, cap);
    ChosenFacts(s, count, cap);
    if s[j] in f {
      FirstPassInOrder(s, count, cap, i, j);
    } else {
      FillInOrder(f, s, count, NodeOf, i, j);
      var l :| 0 <= l < |r| && NodeOf(r[l]) == NodeOf(s[i]);
      assert r[l] in s;
      OneCandidatePerNode(s, r[l], s[i]);
    }
  }

  /**
   No degraded or quarantined candidate is selected, and of two eligible ones of a
   group the one that ranks first is selected whenever the other is.
   */
  lemma SelectionPrefers(
    candidates: seq<Candidate>, count: nat, cap: nat, hash: NodeId -> u64, a: Candidate, b: Candidate)
    requires DistinctBy(candidates, NodeOf) && b in candidates
    requires a in Chosen(SortBy(EligibleOf(candidates, true), RankBy(hash)), count, cap)
    ensures a in candidates && a.maturity in
              {EvidenceGraph.New, EvidenceGraph.Observed, EvidenceGraph.Established, EvidenceGraph.TrustedLocally}
    ensures Eligible(b) && b.group == a.group && RankBy(hash)(b) < RankBy(hash)(a) ==>
              b in Chosen(SortBy(EligibleOf(candidates, true), RankBy(hash)), count, cap)
  {
    var ordered := SortBy(EligibleOf(candidates, true), RankBy(hash));
    OrderedFacts(candidates, RankBy(hash));
    ChosenFacts(ordered, count, cap);
    assert a in ordered;
    if Eligible(b) && b.group == a.group && RankBy(hash)(b) < RankBy(hash)(a) {
      PreferredFirst(ordered, count, cap, RankBy(hash), a, b);
    }
  }

  lemma PreferredFirst(
    ordered: seq<Candidate>, count: nat, cap: nat, rank: Candidate -> int, a: Candidate, b: Candidate)
    requires DistinctBy(ordered, NodeOf) && SortedBy(ordered, rank) && a in Chosen(ordered, count, cap)
    requires a in ordered && b in ordered && b.group == a.group && rank(b) < rank(a)
    ensures b in Chosen(ordered, count, cap)
  {
    var j :| 0 <= j < |ordered| && ordered[j] == a;
    var i :| 0 <= i < |ordered| && ordered[i] == b;
    SelectedInOrder(ordered, count, cap, i, j);
  }

  lemma OrderedFacts(candidates: seq<Candidate>, rank: Candidate -> int)
    requires DistinctBy(candidates, NodeOf)
    ensures var ordered := SortBy(EligibleOf(candidates, true), rank);
            && DistinctBy(ordered, NodeOf) && SortedBy(ordered, rank)
            && forall c :: c in ordered <==> c in candidates && Eligible(c)
  {
    var eligible := EligibleOf(candidates, true);
    EligibleFacts(candidates, true);
    EligibleDistinct(candidates, true);
    SortFacts(eligible, rank);
    SortMembers(eligible, rank);
    DistinctPermute(eligible, SortBy(eligible, rank), NodeOf);
  }
}

/**
 Robust aggregation of training updates (`aggregate_updates` in
 crates/intelligence/src/training_fabric.rs).
 */
module Aggregation {
  import opened Machine
  import opened Sorting

  datatype Policy = Mean | ClippedMean | TrimmedMean | CoordinateMedian

  datatype Report = Report(aggregate: seq<int>, accepted: nat, rejected: nat, width: nat)

  type Update = seq<int>

  predicate Invalid(updates: seq<Update>, clip: int) {
    || updates == [] || |updates| > 64
    || updates[0] == [] || |updates[0]| > 128
    || clip <= 0
    || exists i :: 0 <= i < |updates| && |updates[i]| != |updates[0]|
  }

  predicate Within(u: Update, clip: int) { forall i :: 0 <= i < |u| ==> Abs(u[i]) <= clip }

  function Accepted(updates: seq<Update>, clip: int): seq<Update> {
    if updates == [] then []
    else Accepted(updates[..|updates| - 1], clip)
         + if Within(updates[|updates| - 1], clip) then [updates[|updates| - 1]] else []
  }

  function CountRejected(updates: seq<Update>, clip: int): nat {
    if updates == [] then 0
    else CountRejected(updates[..|updates| - 1], clip) + if Within(updates[|updates| - 1], clip) then 0 else 1
  }

  function Clamp(x: int, clip: int): int { Max(-clip, Min(x, clip)) }

  ghost predicate Reaches(updates: seq<Update>, j: nat) { forall i :: 0 <= i < |updates| ==> j < |updates[i]| }

  /** The clamped values of one coordinate. */
  function Column(updates: seq<Update>, j: nat, clip: int): seq<int>
    requires forall i :: 0 <= i < |updates| ==> j < |updates[i]|
  {
    if updates == [] then []
    else Column(updates[..|updates| - 1], j, clip) + [Clamp(updates[|updates| - 1][j], clip)]
  }

  function Sum(values: seq<int>): int {
    if values == [] then 0 else Sum(values[..|values| - 1]) + values[|values| - 1]
  }

  function MeanOf(values: seq<int>): int
    requires values != []
  {
    TruncDiv(Sum(values), |values|)
  }

  function Sorted(values: seq<int>): (s: seq<int>)
    ensures |s| == |values| && multiset(s) == multiset(values) && SortedBy(s, Self)
  {
    SortFacts(values, Self);
    SortBy(values, Self)
  }

  function TrimmedMeanOf(values: seq<int>): int
    requires values != []
  {
    if |values| >= 3 then MeanOf(Sorted(values)[1..|values| - 1]) else MeanOf(values)
  }

  function MedianOf(values: seq<int>): int
    requires values != []
  {
    var s, middle := Sorted(values), |values| / 2;
    if |values| % 2 == 0 then TruncDiv(s[middle - 1] + s[middle], 2) else s[middle]
  }

  function Combine(policy: Policy, values: seq<int>): int
    requires values != []
  {
    match policy
    case Mean => MeanOf(values)
    case ClippedMean => MeanOf(values)
    case TrimmedMean => TrimmedMeanOf(values)
    case CoordinateMedian => MedianOf(values)
  }

  lemma {:induction false} AcceptedFacts(updates: seq<Update>, clip: int)
    ensures |Accepted(updates, clip)| + CountRejected(updates, clip) == |updates|
    ensures forall u :: u in Accepted(updates, clip) <==> u in updates && Within(u, clip)
  {
    if updates != [] {
      AcceptedFacts(updates[..|updates| - 1], clip);
      assert updates == updates[..|updates| - 1] + [updates[|updates| - 1]];
    }
  }

  lemma AcceptedWide(updates: seq<Update>, clip: int)
    requires !Invalid(updates, clip)
    ensures forall i :: 0 <= i < |Accepted(updates, clip)| ==> |Accepted(updates, clip)[i]| == |updates[0]|
  {
    AcceptedFacts(updates, clip);
    forall i | 0 <= i < |Accepted(updates, clip)| ensures |Accepted(updates, clip)[i]| == |updates[0]| {
      assert Accepted(updates, clip)[i] in updates;
    }
  }

  lemma {:induction false} ColumnSize(updates: seq<Update>, j: nat, clip: int)
    requires forall i :: 0 <= i < |updates| ==> j < |updates[i]|
    ensures |Column(updates, j, clip)| == |updates|
  {
    if updates != [] {
      ColumnSize(updates[..|updates| - 1], j, clip);
    }
  }

  /** The aggregate of one coordinate. */
  function Coordinate(policy: Policy, accepted: seq<Update>, j: nat, clip: int): int
    requires accepted != [] && forall i :: 0 <= i < |accepted| ==> j < |accepted[i]|
  {
    ColumnSize(accepted, j, clip);
    Clamp(Combine(policy, Column(accepted, j, clip)), clip)
  }

  /** The aggregates of the first `n` coordinates. */
  function Coordinates(policy: Policy, accepted: seq<Update>, n: nat, clip: int): seq<int>
    requires accepted != [] && forall i :: 0 <= i < |accepted| ==> n <= |accepted[i]|
  {
    seq(n, j requires 0 <= j < n => Coordinate(policy, accepted, j, clip))
  }

  lemma CoordinatesBounded(policy: Policy, accepted: seq<Update>, n: nat, clip: int)
    requires accepted != [] && clip > 0 && forall i :: 0 <= i < |accepted| ==> n <= |accepted[i]|
    ensures forall j :: 0 <= j < n ==> Abs(Coordinates(policy, accepted, n, clip)[j]) <= clip
  {
  }

  /** What `aggregate_updates` reports; nothing for malformed input or when no update is accepted. */
  function Aggregate(policy: Policy, updates: seq<Update>, clip: int): Option<Report> {
    var accepted := Accepted(updates, clip);
    if Invalid(updates, clip) || accepted == [] then None
    else
      AcceptedWide(updates, clip);
      Some(Report(Coordinates(policy, accepted, |updates[0]|, clip),
                  |accepted|, CountRejected(updates, clip), |updates[0]|))
  }

  /**
   `aggregate_updates`: every coordinate is combined on its own, and every update
   is counted as accepted or rejected.
   */
  method AggregateUpdates(policy: Policy, updates: seq<Update>, clip: int) returns (r: Option<Report>)
    ensures r == Aggregate(policy, updates, clip)
    ensures r.Some? ==>
              && r.value.width == |r.value.aggregate| == |updates[0]|
              && r.value.accepted + r.value.rejected == |updates|
              && (forall j :: 0 <= j < r.value.width ==> Abs(r.value.aggregate[j]) <= clip)
  {
    if Invalid(updates, clip) {
      return None;
    }
    AcceptedFacts(updates, clip);
    AcceptedWide(updates, clip);
    var accepted := Accepted(updates, clip);
    if accepted == [] {
      return None;
    }
    var width := |updates[0]|;
    var aggregate := CombineColumns(policy, accepted, width, clip);
    CoordinatesBounded(policy, accepted, width, clip);
    r := Some(Report(aggregate, |accepted|, CountRejected(updates, clip), width));
  }

  method CombineColumns(policy: Policy, accepted: seq<Update>, width: nat, clip: int) returns (aggregate: seq<int>)
    requires accepted != [] && clip > 0 && forall i :: 0 <= i < |accepted| ==> |accepted[i]| == width
    ensures aggregate == Coordinates(policy, accepted, width, clip)
  {
    aggregate := [];
    for j := 0 to width
      invariant aggregate == Coordinates(policy, accepted, j, clip)
    {
      var value := CombineColumn(policy, accepted, j, width, clip);
      aggregate := aggregate + [value];
    }
  }

  lemma CoordinatesSnoc(policy: Policy, accepted: seq<Update>, j: nat, clip: int)
    requires accepted != [] && forall i :: 0 <= i < |accepted| ==> j < |accepted[i]|
    ensures Coordinates(policy, accepted, j + 1, clip)
            == Coordinates(policy, accepted, j, clip) + [Coordinate(policy, accepted, j, clip)]
  {
  }

  method CombineColumn(policy: Policy, accepted: seq<Update>, j: nat, width: nat, clip: int) returns (value: int)
    requires accepted != [] && clip > 0 && forall i :: 0 <= i < |accepted| ==> j < width == |accepted[i]|
    ensures Coordinates(policy, accepted, j + 1, clip) == Coordinates(policy, accepted, j, clip) + [value]
  {
    CoordinatesSnoc(policy, accepted, j, clip);
    var values := ReadColumn(accepted, j, clip);
    ColumnSize(accepted, j, clip);
    value := Clamp(Combine(policy, values), clip);
  }

  method ReadColumn(updates: seq<Update>, j: nat, clip: int) returns (values: seq<int>)
    requires forall i :: 0 <= i < |updates| ==> j < |updates[i]|
    ensures values == Column(updates, j, clip)
  {
    values := [];
    for i := 0 to |updates|
      invariant values == Column(updates[..i], j, clip)
    {
      assert updates[..i + 1][..i] == updates[..i];
      values := values + [Clamp(updates[i][j], clip)];
    }
    assert updates[..|updates|] == updates;
  }

  // ----- ranges

  function CountIn(values: seq<int>, lo: int, hi: int): nat {
    if values == [] then 0
    else CountIn(values[..|values| - 1], lo, hi) + if lo <= values[|values| - 1] <= hi then 1 else 0
  }

  lemma {:induction false} CountConcat(a: seq<int>, b: seq<int>, lo: int, hi: int)
    ensures CountIn(a + b, lo, hi) == CountIn(a, lo, hi) + CountIn(b, lo, hi)
  {
    if b == [] {
      assert a + b == a;
    } else {
      CountConcat(a, b[..|b| - 1], lo, hi);
      assert (a + b)[..|a + b| - 1] == a + b[..|b| - 1];
    }
  }

  lemma {:induction false} CountAtMost(values: seq<int>, lo: int, hi: int)
    ensures CountIn(values, lo, hi) <= |values|
    ensures (forall i :: 0 <= i < |values| ==> !(lo <= values[i] <= hi)) ==> CountIn(values, lo, hi) == 0
    ensures (forall i :: 0 <= i < |values| ==> lo <= values[i] <= hi) ==> CountIn(values, lo, hi) == |values|
  {
    if values != [] {
      CountAtMost(values[..|values| - 1], lo, hi);
    }
  }

  lemma {:induction false} CountInsert(values: seq<int>, x: int, lo: int, hi: int)
    ensures CountIn(Insert(values, x, Self), lo, hi) == CountIn(values, lo, hi) + if lo <= x <= hi then 1 else 0
  {
    if values == [] || Self(values[|values| - 1]) <= Self(x) {
      assert (values + [x])[..|values|] == values;
    } else {
      var before, last := values[..|values| - 1], values[|values| - 1];
      CountInsert(before, x, lo, hi);
      var r := Insert(before, x, Self);
      assert (r + [last])[..|r|] == r;
    }
  }

  lemma {:induction false} CountSorted(values: seq<int>, lo: int, hi: int)
    ensures CountIn(SortBy(values, Self), lo, hi) == CountIn(values, lo, hi)
  {
    if values != [] {
      CountSorted(values[..|values| - 1], lo, hi);
      CountInsert(SortBy(values[..|values| - 1], Self), values[|values| - 1], lo, hi);
    }
  }

  lemma SortedPair(s: seq<int>, i: nat, j: nat)
    requires SortedBy(s, Self) && i <= j < |s|
    ensures s[i] <= s[j]
  {
    if i < j {
      assert Self(s[i]) <= Self(s[j]);
    }
  }

  /** If position `k` of a sorted list is above the range, so is everything after it. */
  lemma AboveCounts(s: seq<int>, k: nat, lo: int, hi: int)
    requires SortedBy(s, Self) && k < |s| && s[k] > hi
    ensures CountIn(s, lo, hi) <= k
  {
    var front, back := s[..k], s[k..];
    assert s == front + back;
    forall i | 0 <= i < |back| ensures back[i] > hi {
      SortedPair(s, k, k + i);
    }
    CountOutside(front, back, lo, hi);
  }

  /** Values outside the range do not count, on whichever side of a list they are. */
  lemma CountOutside(a: seq<int>, b: seq<int>, lo: int, hi: int)
    ensures (forall i :: 0 <= i < |b| ==> b[i] > hi) ==> CountIn(a + b, lo, hi) <= |a|
    ensures (forall i :: 0 <= i < |a| ==> a[i] < lo) ==> CountIn(a + b, lo, hi) <= |b|
  {
    CountConcat(a, b, lo, hi);
    CountAtMost(a, lo, hi);
    CountAtMost(b, lo, hi);
  }

  /** If it is below the range, so is everything before it. */
  lemma BelowCounts(s: seq<int>, k: nat, lo: int, hi: int)
    requires SortedBy(s, Self) && k < |s| && s[k] < lo
    ensures CountIn(s, lo, hi) <= |s| - k - 1
  {
    var front, back := s[..k + 1], s[k + 1..];
    assert s == front + back;
    forall i | 0 <= i < |front| ensures front[i] < lo {
      SortedPair(s, i, k);
    }
    CountOutside(front, back, lo, hi);
  }

  /** Position `k` is in the range if too many values are for it to be above or below. */
  lemma PositionInRange(s: seq<int>, k: nat, lo: int, hi: int)
    requires SortedBy(s, Self) && k < |s|
    requires CountIn(s, lo, hi) > k && CountIn(s, lo, hi) >= |s| - k
    ensures lo <= s[k] <= hi
  {
    if s[k] > hi {
      AboveCounts(s, k, lo, hi);
    } else if s[k] < lo {
      BelowCounts(s, k, lo, hi);
    }
  }

  lemma MedianOdd(values: seq<int>, m: nat)
    requires |values| == 2 * m + 1
    ensures MedianOf(values) == Sorted(values)[m]
  {
  }

  lemma MedianEven(values: seq<int>, m: nat)
    requires |values| == 2 * m && m > 0
    ensures MedianOf(values) == TruncDiv(Sorted(values)[m - 1] + Sorted(values)[m], 2)
  {
  }

  /** A strict majority in a range keeps the median in it, for odd and even counts. */
  lemma MedianFollowsMajority(values: seq<int>, lo: int, hi: int)
    requires values != [] && 2 * CountIn(values, lo, hi) > |values|
    ensures lo <= MedianOf(values) <= hi
  {
    CountSorted(values, lo, hi);
    MiddlesFollow(Sorted(values), |values| / 2, lo, hi);
    MiddleInRange(values, |values| / 2, lo, hi);
  }

  lemma MiddleInRange(values: seq<int>, m: nat, lo: int, hi: int)
    requires values != [] && 2 * m <= |values| <= 2 * m + 1
    requires MiddlesIn(Sorted(values), m, lo, hi)
    ensures lo <= MedianOf(values) <= hi
  {
    if |values| == 2 * m {
      EvenInRange(values, m, lo, hi);
    } else {
      MedianOdd(values, m);
    }
  }

  /** The entries of a sorted list that decide its median lie in the range. */
  ghost predicate MiddlesIn(s: seq<int>, m: nat, lo: int, hi: int) {
    && m < |s| && lo <= s[m] <= hi
    && (|s| == 2 * m ==> lo <= s[m - 1] <= hi)
  }

  lemma MiddlesFollow(s: seq<int>, m: nat, lo: int, hi: int)
    requires s != [] && SortedBy(s, Self) && 2 * m <= |s| <= 2 * m + 1 && 2 * CountIn(s, lo, hi) > |s|
    ensures MiddlesIn(s, m, lo, hi)
  {
    PositionInRange(s, m, lo, hi);
    if |s| == 2 * m {
      PositionInRange(s, m - 1, lo, hi);
    }
  }

  lemma EvenInRange(values: seq<int>, m: nat, lo: int, hi: int)
    requires |values| == 2 * m && m > 0
    requires lo <= Sorted(values)[m - 1] <= hi && lo <= Sorted(values)[m] <= hi
    ensures lo <= MedianOf(values) <= hi
  {
    MedianEven(values, m);
    TruncDivBounds(Sorted(values)[m - 1] + Sorted(values)[m], 2, lo, hi);
  }

  lemma {:induction false} SumBounds(values: seq<int>, lo: int, hi: int)
    requires forall i :: 0 <= i < |values| ==> lo <= values[i] <= hi
    ensures lo * |values| <= Sum(values) <= hi * |values|
  {
    if values != [] {
      var n := |values| - 1;
      SumBounds(values[..n], lo, hi);
      assert lo * |values| == lo * n + lo && hi * |values| == hi * n + hi;
    }
  }

  lemma MeanBounds(values: seq<int>, lo: int, hi: int)
    requires values != [] && forall i :: 0 <= i < |values| ==> lo <= values[i] <= hi
    ensures lo <= MeanOf(values) <= hi
  {
    SumBounds(values, lo, hi);
    TruncDivBounds(Sum(values), |values|, lo, hi);
  }

  lemma InnerInRange(s: seq<int>, inner: seq<int>, lo: int, hi: int)
    requires SortedBy(s, Self) && |s| >= 3 && inner == s[1..|s| - 1] && CountIn(s, lo, hi) >= |s| - 1
    ensures forall i :: 0 <= i < |inner| ==> lo <= inner[i] <= hi
  {
    forall i | 0 <= i < |inner| ensures lo <= inner[i] <= hi {
      PositionInRange(s, i + 1, lo, hi);
    }
  }

  lemma InnerMean(s: seq<int>, lo: int, hi: int)
    requires SortedBy(s, Self) && |s| >= 3 && CountIn(s, lo, hi) >= |s| - 1
    ensures lo <= MeanOf(s[1..|s| - 1]) <= hi
  {
    var inner := s[1..|s| - 1];
    InnerInRange(s, inner, lo, hi);
    MeanBounds(inner, lo, hi);
  }

  lemma TrimmedIs(values: seq<int>)
    requires |values| >= 3
    ensures TrimmedMeanOf(values) == MeanOf(Sorted(values)[1..|values| - 1])
  {
  }

  /** With three or more values and at most one outside the range, trimming removes its influence. */
  lemma TrimmedMeanSurvivesOneOutlier(values: seq<int>, lo: int, hi: int)
    requires |values| >= 3 && CountIn(values, lo, hi) >= |values| - 1
    ensures lo <= TrimmedMeanOf(values) <= hi
  {
    CountSorted(values, lo, hi);
    InnerMean(Sorted(values), lo, hi);
    TrimmedIs(values);
  }

  /** No policy leaves the range of its inputs, so the closing clamp never changes a value. */
  lemma CombineStaysInRange(policy: Policy, values: seq<int>, lo: int, hi: int)
    requires values != [] && forall i :: 0 <= i < |values| ==> lo <= values[i] <= hi
    ensures lo <= Combine(policy, values) <= hi
  {
    CountAtMost(values, lo, hi);
    MeanBounds(values, lo, hi);
    MedianFollowsMajority(values, lo, hi);
    if |values| >= 3 {
      TrimmedMeanSurvivesOneOutlier(values, lo, hi);
    }
  }

  // ----- lifted to updates

  /** How many updates have coordinate `j` in [lo, hi]. */
  function CountCoordinate(updates: seq<Update>, j: nat, lo: int, hi: int): nat
    requires forall i :: 0 <= i < |updates| ==> j < |updates[i]|
  {
    if updates == [] then 0
    else CountCoordinate(updates[..|updates| - 1], j, lo, hi) + if lo <= updates[|updates| - 1][j] <= hi then 1 else 0
  }

  lemma {:induction false} ColumnOfAccepted(updates: seq<Update>, j: nat, clip: int, lo: int, hi: int)
    requires forall i :: 0 <= i < |updates| ==> j < |updates[i]| && Within(updates[i], clip)
    ensures CountIn(Column(updates, j, clip), lo, hi) == CountCoordinate(updates, j, lo, hi)
    ensures forall i :: 0 <= i < |Column(updates, j, clip)| ==> -clip <= Column(updates, j, clip)[i] <= clip
  {
    if updates != [] {
      var before, last := updates[..|updates| - 1], updates[|updates| - 1];
      ColumnOfAccepted(before, j, clip, lo, hi);
      assert Abs(last[j]) <= clip;
      var c := Column(before, j, clip);
      assert (c + [Clamp(last[j], clip)])[..|c|] == c;
    }
  }

  /**
   The aggregate of a coordinate stays in [lo, hi] under the median whenever more
   than half of the accepted updates have it there, and under the trimmed mean
   whenever at least three are accepted and at most one of them does not.
   */
  lemma AggregateIsRobust(updates: seq<Update>, clip: int, j: nat, lo: int, hi: int)
    requires !Invalid(updates, clip) && j < |updates[0]| && Accepted(updates, clip) != []
    requires forall i :: 0 <= i < |Accepted(updates, clip)| ==> j < |Accepted(updates, clip)[i]|
    ensures var accepted := Accepted(updates, clip);
            var good := CountCoordinate(accepted, j, lo, hi);
            && (2 * good > |accepted| ==> lo <= Coordinate(CoordinateMedian, accepted, j, clip) <= hi)
            && (|accepted| >= 3 && good >= |accepted| - 1 ==> lo <= Coordinate(TrimmedMean, accepted, j, clip) <= hi)
  {
    var accepted := Accepted(updates, clip);
    AcceptedFacts(updates, clip);
    forall i | 0 <= i < |accepted| ensures Within(accepted[i], clip) {
      assert accepted[i] in accepted;
    }
    ColumnSize(accepted, j, clip);
    ColumnOfAccepted(accepted, j, clip, lo, hi);
    var column := Column(accepted, j, clip);
    CombineStaysInRange(CoordinateMedian, column, -clip, clip);
    CombineStaysInRange(TrimmedMean, column, -clip, clip);
    if 2 * CountIn(column, lo, hi) > |column| {
      MedianFollowsMajority(column, lo, hi);
    }
    if |column| >= 3 && CountIn(column, lo, hi) >= |column| - 1 {
      TrimmedMeanSurvivesOneOutlier(column, lo, hi);
    }
  }

  /** How many submitted updates are within the clip bound everywhere and have coordinate `j` in [lo, hi]. */
  function CountGood(updates: seq<Update>, j: nat, clip: int, lo: int, hi: int): nat
    requires forall i :: 0 <= i < |updates| ==> j < |updates[i]|
  {
    if updates == [] then 0
    else
      var last := updates[|updates| - 1];
      CountGood(updates[..|updates| - 1], j, clip, lo, hi) + if Within(last, clip) && lo <= last[j] <= hi then 1 else 0
  }

  lemma {:induction false} GoodAreAccepted(updates: seq<Update>, j: nat, clip: int, lo: int, hi: int)
    requires Reaches(updates, j)
    ensures Reaches(Accepted(updates, clip), j)
    ensures CountCoordinate(Accepted(updates, clip), j, lo, hi) == CountGood(updates, j, clip, lo, hi)
    ensures CountGood(updates, j, clip, lo, hi) <= |Accepted(updates, clip)|
  {
    if updates != [] {
      var before, last := updates[..|updates| - 1], updates[|updates| - 1];
      GoodAreAccepted(before, j, clip, lo, hi);
      var kept := Accepted(before, clip);
      assert (kept + [last])[..|kept|] == kept;
      assert Accepted(updates, clip) == if Within(last, clip) then kept + [last] else kept;
    }
  }

  /**
   In terms of what was submitted: if more than half of the updates are wholly
   within the clip bound and have the coordinate in [lo, hi], then some update is
   accepted and the median of the coordinate is in [lo, hi].
   */
  lemma SubmittedMajorityDecides(updates: seq<Update>, clip: int, j: nat, lo: int, hi: int)
    requires !Invalid(updates, clip) && j < |updates[0]| && Reaches(updates, j)
    requires 2 * CountGood(updates, j, clip, lo, hi) > |updates|
    ensures var accepted := Accepted(updates, clip);
            accepted != [] && Reaches(accepted, j) && lo <= Coordinate(CoordinateMedian, accepted, j, clip) <= hi
  {
    GoodAreAccepted(updates, j, clip, lo, hi);
    AcceptedFacts(updates, clip);
    AggregateIsRobust(updates, clip, j, lo, hi);
  }

  /**
   Counting the submitted updates by that coordinate alone is not enough: an update is dropped as
   a whole, so two good values of a coordinate are lost with updates that are out
   of bounds elsewhere, and the one outlier left decides.
   */
  lemma MajorityOfSubmittedIsNotEnough()
    ensures var updates := [[1, 20], [1, 20], [9, 0]];
            && !Invalid(updates, 10)
            && CountCoordinate(updates, 0, 1, 1) == 2
            && Accepted(updates, 10) == [[9, 0]]
            && Coordinate(CoordinateMedian, [[9, 0]], 0, 10) == 9
  {
    TwoAreDropped([1, 20], [9, 0]);
    MedianOfLone([9, 0]);
  }

  lemma TwoAreDropped(u: Update, v: Update)
    requires u == [1, 20] && v == [9, 0]
    ensures !Invalid([u, u, v], 10) && CountCoordinate([u, u, v], 0, 1, 1) == 2 && Accepted([u, u, v], 10) == [v]
  {
    assert u[1] == 20;
    AcceptedOne(u, 10);
    AcceptedOne(v, 10);
    AcceptedConcat([u], [u], 10);
    AcceptedConcat([u] + [u], [v], 10);
    assert [u, u, v] == [u] + [u] + [v];
    CountFirstTwo(u, v);
  }

  lemma MedianOfLone(v: Update)
    requires v == [9, 0]
    ensures Coordinate(CoordinateMedian, [v], 0, 10) == 9
  {
    MedianOfOne(9);
    ColumnOfOne(v, 0, 10);
  }

  lemma CountFirstTwo(u: Update, v: Update)
    requires |u| > 0 && |v| > 0 && u[0] == 1 && v[0] != 1
    ensures CountCoordinate([u, u, v], 0, 1, 1) == 2
  {
    var one: seq<Update>, two: seq<Update>, three: seq<Update> := [u], [u, u], [u, u, v];
    assert one[..0] == [] && two[..1] == one && three[..2] == two;
    assert CountCoordinate(one, 0, 1, 1) == 1;
    assert CountCoordinate(two, 0, 1, 1) == 2;
  }

  lemma MedianOfOne(x: int)
    ensures MedianOf([x]) == x
  {
    MedianOdd([x], 0);
    assert Sorted([x])[0] in multiset([x]);
  }

  /** A value far enough above [lo, hi] for its average with anything in the range to be above it too. */
  function Far(lo: int, hi: int): int { 2 * Abs(hi) + Abs(lo) + 2 }

  /** A majority is also needed: with half or fewer inside, equal values outside drag the median out. */
  lemma HalfIsNotEnough(inside: seq<int>, outside: seq<int>, lo: int, hi: int)
    requires outside != [] && |inside| <= |outside|
    requires forall i :: 0 <= i < |inside| ==> lo <= inside[i] <= hi
    requires forall i :: 0 <= i < |outside| ==> outside[i] == Far(lo, hi)
    ensures MedianOf(inside + outside) > hi
  {
    var values := inside + outside;
    var n := |values|;
    var m := n / 2;
    FarInUpperHalf(inside, outside, lo, hi, m);
    if n == 2 * m {
      EntryAtLeast(values, m - 1, lo);
      EvenAbove(values, m, lo, hi);
    } else {
      MedianOdd(values, m);
    }
  }

  lemma {:induction false} ColumnValues(updates: seq<Update>, j: nat, clip: int, i: nat)
    requires Reaches(updates, j) && i < |updates| && forall u :: u in updates ==> Within(u, clip)
    ensures i < |Column(updates, j, clip)| && Column(updates, j, clip)[i] == updates[i][j]
  {
    var n := |updates| - 1;
    ColumnSize(updates, j, clip);
    ColumnSize(updates[..n], j, clip);
    if i < n {
      ColumnValues(updates[..n], j, clip, i);
    } else {
      assert updates[n] in updates && Abs(updates[n][j]) <= clip;
    }
  }

  /**
   The same of accepted updates: with half or fewer of them in the range, updates
   that agree on a far enough value within the clip bound drag the coordinate out.
   */
  lemma HalfOfUpdatesIsNotEnough(inside: seq<Update>, outside: seq<Update>, j: nat, clip: int, lo: int, hi: int)
    requires outside != [] && |inside| <= |outside| && clip > 0 && Reaches(inside, j) && Reaches(outside, j)
    requires forall u :: u in inside ==> Within(u, clip) && lo <= u[j] <= hi
    requires forall u :: u in outside ==> Within(u, clip) && u[j] == Far(lo, hi)
    ensures Reaches(inside + outside, j) && Coordinate(CoordinateMedian, inside + outside, j, clip) > hi
  {
    var a, b := Column(inside, j, clip), Column(outside, j, clip);
    ColumnSize(inside, j, clip);
    ColumnSize(outside, j, clip);
    ColumnConcat(inside, outside, j, clip);
    forall i | 0 <= i < |a| ensures lo <= a[i] <= hi {
      ColumnValues(inside, j, clip, i);
    }
    forall i | 0 <= i < |b| ensures b[i] == Far(lo, hi) {
      ColumnValues(outside, j, clip, i);
    }
    HalfIsNotEnough(a, b, lo, hi);
    ColumnValues(outside, j, clip, 0);
    assert outside[0] in outside && Abs(outside[0][j]) <= clip;
  }

  lemma EvenAbove(values: seq<int>, m: nat, lo: int, hi: int)
    requires |values| == 2 * m && m > 0 && lo <= Sorted(values)[m - 1]
    requires Sorted(values)[m] == Far(lo, hi)
    ensures MedianOf(values) > hi
  {
    MedianEven(values, m);
    HalfAbove(Sorted(values)[m - 1], lo, hi);
  }

  lemma HalfAbove(x: int, lo: int, hi: int)
    requires lo <= x
    ensures TruncDiv(x + Far(lo, hi), 2) > hi
  {
  }

  lemma EntryAtLeast(values: seq<int>, k: nat, lo: int)
    requires k < |values| && forall i :: 0 <= i < |values| ==> lo <= values[i]
    ensures lo <= Sorted(values)[k]
  {
    SortMembers(values, Self);
    assert Sorted(values)[k] in values;
  }

  lemma FarInUpperHalf(inside: seq<int>, outside: seq<int>, lo: int, hi: int, k: nat)
    requires |inside| <= k < |inside| + |outside|
    requires forall i :: 0 <= i < |inside| ==> lo <= inside[i] <= hi
    requires forall i :: 0 <= i < |outside| ==> outside[i] == Far(lo, hi)
    ensures Sorted(inside + outside)[k] == Far(lo, hi)
  {
    var values, far := inside + outside, Far(lo, hi);
    SortMembers(values, Self);
    assert Sorted(values)[k] in values;
    CountSorted(values, far, far);
    CountConcat(inside, outside, far, far);
    CountAtMost(outside, far, far);
    if Sorted(values)[k] < far {
      BelowCounts(Sorted(values), k, far, far);
    }
  }

  // ----- order of the updates

  /** Permuting the values changes no policy's result. */
  lemma CombinePermutes(policy: Policy, a: seq<int>, b: seq<int>)
    requires a != [] && b != [] && multiset(a) == multiset(b)
    ensures Combine(policy, a) == Combine(policy, b)
  {
    MeanPermutes(a, b);
    SortedUnique(Sorted(a), Sorted(b));
    TrimmedFromSorted(a, b);
    MedianFromSorted(a, b);
  }

  lemma MeanPermutes(a: seq<int>, b: seq<int>)
    requires a != [] && b != [] && multiset(a) == multiset(b)
    ensures |a| == |b| && MeanOf(a) == MeanOf(b)
  {
    SortedUnique(Sorted(a), Sorted(b));
    SumSorted(a);
    SumSorted(b);
  }

  lemma TrimmedFromSorted(a: seq<int>, b: seq<int>)
    requires a != [] && b != [] && Sorted(a) == Sorted(b) && MeanOf(a) == MeanOf(b)
    ensures TrimmedMeanOf(a) == TrimmedMeanOf(b)
  {
    assert |a| == |Sorted(a)| && |b| == |Sorted(b)|;
  }

  lemma MedianFromSorted(a: seq<int>, b: seq<int>)
    requires a != [] && b != [] && Sorted(a) == Sorted(b)
    ensures MedianOf(a) == MedianOf(b)
  {
    assert |a| == |Sorted(a)| && |b| == |Sorted(b)|;
  }

  lemma {:induction false} SumInsert(values: seq<int>, x: int)
    ensures Sum(Insert(values, x, Self)) == Sum(values) + x
  {
    if values == [] || Self(values[|values| - 1]) <= Self(x) {
      assert (values + [x])[..|values|] == values;
    } else {
      var before, last := values[..|values| - 1], values[|values| - 1];
      SumInsert(before, x);
      var r := Insert(before, x, Self);
      assert (r + [last])[..|r|] == r;
    }
  }

  lemma {:induction false} SumSorted(values: seq<int>)
    ensures Sum(SortBy(values, Self)) == Sum(values)
  {
    if values != [] {
      SumSorted(values[..|values| - 1]);
      SumInsert(SortBy(values[..|values| - 1], Self), values[|values| - 1]);
    }
  }

  lemma {:induction false} AcceptedConcat(a: seq<Update>, b: seq<Update>, clip: int)
    ensures Accepted(a + b, clip) == Accepted(a, clip) + Accepted(b, clip)
  {
    if b == [] {
      assert a + b == a;
    } else {
      AcceptedConcat(a, b[..|b| - 1], clip);
      assert (a + b)[..|a + b| - 1] == a + b[..|b| - 1];
    }
  }

  lemma AcceptedOne(u: Update, clip: int)
    ensures Accepted([u], clip) == if Within(u, clip) then [u] else []
  {
    assert [u][..0] == [];
  }

  lemma {:induction false} AcceptedPermutes(a: seq<Update>, b: seq<Update>, clip: int)
    requires multiset(a) == multiset(b)
    ensures multiset(Accepted(a, clip)) == multiset(Accepted(b, clip))
  {
    if a == [] {
      assert |multiset(b)| == 0;
    } else {
      var before, last := a[..|a| - 1], a[|a| - 1];
      var front, back := TakeOut(a, b);
      AcceptedPermutes(before, front + back, clip);
      AcceptedConcat(front, back, clip);
      AcceptedConcat(front, [last], clip);
      AcceptedConcat(front + [last], back, clip);
      AcceptedOne(last, clip);
    }
  }

  /** The last element of `a` splits a permutation `b` of it into what is before and after it. */
  lemma TakeOut<T>(a: seq<T>, b: seq<T>) returns (front: seq<T>, back: seq<T>)
    requires a != [] && multiset(a) == multiset(b)
    ensures b == front + [a[|a| - 1]] + back
    ensures multiset(a[..|a| - 1]) == multiset(front + back)
  {
    var last := a[|a| - 1];
    WithoutLast(a);
    assert last in multiset(b);
    var i :| 0 <= i < |b| && b[i] == last;
    front, back := b[..i], b[i + 1..];
    assert b == front + [last] + back;
    assert multiset(b) == multiset(front + back) + multiset{last};
  }

  lemma {:induction false} ColumnConcat(a: seq<Update>, b: seq<Update>, j: nat, clip: int)
    requires forall i :: 0 <= i < |a| ==> j < |a[i]|
    requires forall i :: 0 <= i < |b| ==> j < |b[i]|
    ensures (forall i :: 0 <= i < |a + b| ==> j < |(a + b)[i]|)
    ensures Column(a + b, j, clip) == Column(a, j, clip) + Column(b, j, clip)
  {
    if b == [] {
      assert a + b == a;
    } else {
      ColumnConcat(a, b[..|b| - 1], j, clip);
      assert (a + b)[..|a + b| - 1] == a + b[..|b| - 1];
    }
  }

  lemma ColumnOfOne(u: Update, j: nat, clip: int)
    requires j < |u|
    ensures Column([u], j, clip) == [Clamp(u[j], clip)]
  {
    var one: seq<Update> := [u];
    assert one[..0] == [];
  }

  lemma ColumnAround(front: seq<Update>, u: Update, back: seq<Update>, j: nat, clip: int)
    requires Reaches(front, j) && j < |u| && Reaches(back, j)
    ensures Reaches(front + [u] + back, j) && Reaches(front + back, j)
    ensures multiset(Column(front + [u] + back, j, clip))
            == multiset(Column(front + back, j, clip)) + multiset{Clamp(u[j], clip)}
  {
    ColumnConcat(front, [u], j, clip);
    ColumnConcat(front + [u], back, j, clip);
    ColumnConcat(front, back, j, clip);
    ColumnOfOne(u, j, clip);
  }

  lemma {:induction false} ColumnPermutes(a: seq<Update>, b: seq<Update>, j: nat, clip: int)
    requires multiset(a) == multiset(b) && Reaches(a, j) && Reaches(b, j)
    ensures multiset(Column(a, j, clip)) == multiset(Column(b, j, clip))
  {
    if a == [] {
      assert |multiset(b)| == 0;
    } else {
      var front, back := TakeOut(a, b);
      var before, last := a[..|a| - 1], a[|a| - 1];
      assert forall i :: 0 <= i < |front| ==> front[i] == b[i];
      assert forall i :: 0 <= i < |back| ==> back[i] == b[|front| + 1 + i];
      ColumnAround(front, last, back, j, clip);
      ColumnPermutes(before, front + back, j, clip);
    }
  }

  /** Every policy gives the same aggregate for every order of the accepted updates. */
  lemma CoordinatePermutes(policy: Policy, a: seq<Update>, b: seq<Update>, j: nat, clip: int)
    requires a != [] && b != [] && multiset(a) == multiset(b)
    requires forall i :: 0 <= i < |a| ==> j < |a[i]|
    requires forall i :: 0 <= i < |b| ==> j < |b[i]|
    ensures Coordinate(policy, a, j, clip) == Coordinate(policy, b, j, clip)
  {
    ColumnPermutes(a, b, j, clip);
    ColumnSize(a, j, clip);
    ColumnSize(b, j, clip);
    CombinePermutes(policy, Column(a, j, clip), Column(b, j, clip));
  }

  /** The verdict on the input does not depend on the order either. */
  lemma InvalidPermutes(a: seq<Update>, b: seq<Update>, clip: int)
    requires multiset(a) == multiset(b)
    ensures Invalid(a, clip) <==> Invalid(b, clip)
    ensures !Invalid(a, clip) ==> |a[0]| == |b[0]|
  {
    if !Invalid(a, clip) {
      InvalidOneWay(a, b, clip);
    } else if !Invalid(b, clip) {
      InvalidOneWay(b, a, clip);
    }
  }

  lemma InvalidOneWay(a: seq<Update>, b: seq<Update>, clip: int)
    requires multiset(a) == multiset(b) && !Invalid(a, clip)
    ensures !Invalid(b, clip) && |a[0]| == |b[0]|
  {
    assert |multiset(a)| == |a| && |multiset(b)| == |b|;
    forall i | 0 <= i < |b| ensures |b[i]| == |a[0]| {
      assert b[i] in multiset(a);
    }
  }

  lemma CoordinatesPermute(policy: Policy, a: seq<Update>, b: seq<Update>, n: nat, clip: int)
    requires a != [] && b != [] && multiset(a) == multiset(b)
    requires forall i :: 0 <= i < |a| ==> n <= |a[i]|
    requires forall i :: 0 <= i < |b| ==> n <= |b[i]|
    ensures Coordinates(policy, a, n, clip) == Coordinates(policy, b, n, clip)
  {
    forall j | 0 <= j < n ensures Coordinate(policy, a, j, clip) == Coordinate(policy, b, j, clip) {
      CoordinatePermutes(policy, a, b, j, clip);
    }
  }

  /** Every policy reports the same for every order of the submitted updates. */
  lemma AggregatePermutes(policy: Policy, a: seq<Update>, b: seq<Update>, clip: int)
    requires multiset(a) == multiset(b)
    ensures Aggregate(policy, a, clip) == Aggregate(policy, b, clip)
  {
    InvalidPermutes(a, b, clip);
    AcceptedPermutes(a, b, clip);
    AcceptedFacts(a, clip);
    AcceptedFacts(b, clip);
    SameSize(a, b);
    var x, y := Accepted(a, clip), Accepted(b, clip);
    SameSize(x, y);
    if !Invalid(a, clip) && x != [] {
      AcceptedWide(a, clip);
      AcceptedWide(b, clip);
      CoordinatesPermute(policy, x, y, |a[0]|, clip);
    }
  }

  lemma SameSize<T>(a: seq<T>, b: seq<T>)
    requires multiset(a) == multiset(b)
    ensures |a| == |b|
  {
    assert |multiset(a)| == |a| && |multiset(b)| == |b|;
  }
}

/** What each aggregation policy computes, said over the values and not over the way they are combined. */
module AggregationMeaning {
  import opened Machine
  import opened Sorting
  import opened Aggregation

  /** `q` is total / n rounded toward zero. */
  ghost predicate Rounded(q: int, total: int, n: int) {
    if total >= 0 then q >= 0 && q * n <= total < q * n + n
    else q <= 0 && q * n - n < total <= q * n
  }

  lemma TruncRounds(a: int, b: int)
    requires b > 0
    ensures Rounded(TruncDiv(a, b), a, b)
  {
    if a >= 0 {
      QuotientRounds(a, b);
    } else {
      QuotientRounds(-a, b);
      NegatedProduct(-a / b, b);
    }
  }

  lemma QuotientRounds(a: nat, b: int)
    requires b > 0
    ensures a / b >= 0 && a / b * b <= a < a / b * b + b
  {
    assert a == a / b * b + a % b;
  }

  lemma NegatedProduct(x: int, y: int)
    ensures (-x) * y == -(x * y)
  {
  }

  ghost predicate Ascending(s: seq<int>) { forall i, j :: 0 <= i < j < |s| ==> s[i] <= s[j] }

  /** The average of the two middle values, or the middle one. */
  ghost predicate IsMedian(values: seq<int>, r: int) {
    exists s :: && Ascending(s) && multiset(s) == multiset(values) && |s| == |values| > 0
                && var m := |s| / 2;
                   if |s| % 2 == 1 then r == s[m] else Rounded(r, s[m - 1] + s[m], 2)
  }

  /** The mean without one least and one greatest value. */
  ghost predicate IsTrimmedMean(values: seq<int>, r: int) {
    exists lo, hi ::
      && lo in values && hi in values && (forall i :: 0 <= i < |values| ==> lo <= values[i] <= hi)
      && Rounded(r, Sum(values) - lo - hi, |values| - 2)
  }

  ghost predicate Combines(policy: Policy, values: seq<int>, r: int) {
    match policy
    case Mean => Rounded(r, Sum(values), |values|)
    case ClippedMean => Rounded(r, Sum(values), |values|)
    case TrimmedMean =>
      if |values| >= 3 then IsTrimmedMean(values, r) else Rounded(r, Sum(values), |values|)
    case CoordinateMedian => IsMedian(values, r)
  }

  lemma SortedAscends(values: seq<int>)
    ensures Ascending(Sorted(values))
  {
    var s := Sorted(values);
    forall i, j | 0 <= i < j < |s| ensures s[i] <= s[j] {
      Aggregation.SortedPair(s, i, j);
    }
  }

  lemma MedianMeans(values: seq<int>)
    requires values != []
    ensures IsMedian(values, MedianOf(values))
  {
    var s, m := Sorted(values), |values| / 2;
    SortedAscends(values);
    if |values| % 2 == 0 {
      TruncRounds(s[m - 1] + s[m], 2);
    }
  }

  lemma {:induction false} SumConcat(a: seq<int>, b: seq<int>)
    ensures Sum(a + b) == Sum(a) + Sum(b)
  {
    if b == [] {
      assert a + b == a;
    } else {
      SumConcat(a, b[..|b| - 1]);
      assert (a + b)[..|a + b| - 1] == a + b[..|b| - 1];
    }
  }

  lemma SumOne(x: int)
    ensures Sum([x]) == x
  {
    assert [x][..0] == [];
  }

  lemma {:induction false} SumInsert(s: seq<int>, x: int)
    ensures Sum(Insert(s, x, Self)) == Sum(s) + x
  {
    if s == [] || Self(s[|s| - 1]) <= Self(x) {
      assert (s + [x])[..|s|] == s;
    } else {
      var before, last := s[..|s| - 1], s[|s| - 1];
      SumInsert(before, x);
      var r := Insert(before, x, Self);
      assert (r + [last])[..|r|] == r;
    }
  }

  lemma {:induction false} SumSorted(values: seq<int>)
    ensures Sum(SortBy(values, Self)) == Sum(values)
  {
    if values != [] {
      SumSorted(values[..|values| - 1]);
      SumInsert(SortBy(values[..|values| - 1], Self), values[|values| - 1]);
    }
  }

  lemma SumWrapped(first: int, inner: seq<int>, last: int)
    ensures Sum([first] + inner + [last]) == first + Sum(inner) + last
  {
    SumConcat([first] + inner, [last]);
    SumConcat([first], inner);
    SumOne(first);
    SumOne(last);
  }

  lemma MeanOfWrapped(s: seq<int>, first: int, inner: seq<int>, last: int)
    requires s == [first] + inner + [last] && inner != []
    ensures Rounded(MeanOf(inner), Sum(s) - first - last, |s| - 2)
  {
    SumWrapped(first, inner, last);
    TruncRounds(Sum(inner), |inner|);
  }

  lemma SumOfSorted(values: seq<int>)
    ensures Sum(Sorted(values)) == Sum(values)
  {
    SumSorted(values);
  }

  lemma TrimmedMeans(values: seq<int>)
    requires |values| >= 3
    ensures IsTrimmedMean(values, TrimmedMeanOf(values))
  {
    var s, n := Sorted(values), |values|;
    EndsBound(values);
    TrimmedIs(values);
    MeanOfInner(s, TrimmedMeanOf(values));
    SumOfSorted(values);
    TrimmedWitness(values, TrimmedMeanOf(values), s[0], s[n - 1]);
  }

  lemma TrimmedWitness(values: seq<int>, r: int, lo: int, hi: int)
    requires lo in values && hi in values && forall i :: 0 <= i < |values| ==> lo <= values[i] <= hi
    requires Rounded(r, Sum(values) - lo - hi, |values| - 2)
    ensures IsTrimmedMean(values, r)
  {
  }

  lemma MeanOfInner(s: seq<int>, mean: int)
    requires |s| >= 3 && mean == MeanOf(s[1..|s| - 1])
    ensures Rounded(mean, Sum(s) - s[0] - s[|s| - 1], |s| - 2)
  {
    var inner := s[1..|s| - 1];
    assert s == [s[0]] + inner + [s[|s| - 1]];
    MeanOfWrapped(s, s[0], inner, s[|s| - 1]);
  }

  lemma EndsBound(values: seq<int>)
    requires values != []
    ensures var s := Sorted(values);
            && s[0] in values && s[|s| - 1] in values
            && forall i :: 0 <= i < |values| ==> s[0] <= values[i] <= s[|s| - 1]
  {
    var s, n := Sorted(values), |values|;
    SortedAscends(values);
    SortMembers(values, Self);
    assert s[0] in s && s[n - 1] in s;
    forall i | 0 <= i < n ensures s[0] <= values[i] <= s[n - 1] {
      assert values[i] in s;
      var j :| 0 <= j < n && s[j] == values[i];
    }
  }

  /**
   A mean is the sum over the count, a trimmed mean the same without one least and
   one greatest value once there are three, a median the middle value or the average
   of the two middle ones; every division rounds toward zero.
   */
  lemma CombineMeans(policy: Policy, values: seq<int>)
    requires values != []
    ensures Combines(policy, values, Combine(policy, values))
  {
    TruncRounds(Sum(values), |values|);
    MedianMeans(values);
    if |values| >= 3 {
      TrimmedMeans(values);
    }
  }

  /** The values the accepted updates have at one coordinate, as they were submitted. */
  ghost function Submitted(accepted: seq<Update>, j: nat): (values: seq<int>)
    requires Reaches(accepted, j)
    ensures |values| == |accepted| && forall i :: 0 <= i < |accepted| ==> values[i] == accepted[i][j]
  {
    seq(|accepted|, i requires 0 <= i < |accepted| => accepted[i][j])
  }

  lemma ColumnIsSubmitted(accepted: seq<Update>, j: nat, clip: int)
    requires Reaches(accepted, j) && forall i :: 0 <= i < |accepted| ==> Within(accepted[i], clip)
    ensures Column(accepted, j, clip) == Submitted(accepted, j)
  {
    ColumnSize(accepted, j, clip);
    forall i | 0 <= i < |accepted| ensures Column(accepted, j, clip)[i] == Submitted(accepted, j)[i] {
      ColumnValues(accepted, j, clip, i);
    }
  }

  /**
   `aggregate_updates` reports exactly when the input is well formed and some update
   is within the clip bound everywhere; then every coordinate combines the values
   that just those updates submitted for it, and neither clamp changes anything.
   */
  lemma AggregateMeans(policy: Policy, updates: seq<Update>, clip: int)
    ensures var r, accepted := Aggregate(policy, updates, clip), Accepted(updates, clip);
            && (r.Some? <==> !Invalid(updates, clip) && exists i :: 0 <= i < |updates| && Within(updates[i], clip))
            && (r.Some? ==>
                  && |r.value.aggregate| == |updates[0]| && r.value.accepted == |accepted|
                  && forall j :: 0 <= j < |updates[0]| ==>
                       Reaches(accepted, j) && Combines(policy, Submitted(accepted, j), r.value.aggregate[j]))
  {
    var accepted := Accepted(updates, clip);
    AcceptedFacts(updates, clip);
    if i :| 0 <= i < |updates| && Within(updates[i], clip) {
      assert updates[i] in accepted;
    }
    if accepted != [] {
      assert accepted[0] in updates;
      var i :| 0 <= i < |updates| && updates[i] == accepted[0];
    }
    if !Invalid(updates, clip) && accepted != [] {
      AcceptedWide(updates, clip);
      forall i | 0 <= i < |accepted| ensures Within(accepted[i], clip) {
        assert accepted[i] in accepted;
      }
      forall j | 0 <= j < |updates[0]|
        ensures Combines(policy, Submitted(accepted, j), Coordinate(policy, accepted, j, clip))
      {
        CoordinateMeans(policy, accepted, j, clip);
      }
    }
  }

  lemma CoordinateMeans(policy: Policy, accepted: seq<Update>, j: nat, clip: int)
    requires accepted != [] && Reaches(accepted, j)
    requires forall i :: 0 <= i < |accepted| ==> Within(accepted[i], clip)
    ensures Combines(policy, Submitted(accepted, j), Coordinate(policy, accepted, j, clip))
  {
    var column := Column(accepted, j, clip);
    ColumnIsSubmitted(accepted, j, clip);
    CombineMeans(policy, column);
    forall i | 0 <= i < |column| ensures -clip <= column[i] <= clip {
      assert Abs(accepted[i][j]) <= clip;
    }
    CombineStaysInRange(policy, column, -clip, clip);
  }
}

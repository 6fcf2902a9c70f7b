/**
 Local SGD on the reference samples (crates/node/src/distributed_training.rs):
 the integer arithmetic of one worker, and the group that takes the median of
 its workers.
 */
module LocalSgd {
  import opened Machine
  import opened Sorting
  import opened Aggregation

  const TRAINING_SCALE := 1_000_000
  const LEARNING_RATE := 50_000

  datatype Sample = Sample(feature: int, target: int)

  /** `samples_for_shard`: eight samples of the line through the origin with slope 2 or 3. */
  function Slope(shardId: nat): int { if shardId == 0 then 2 else 3 }

  function SamplesUpTo(slope: int, n: nat): seq<Sample> {
    if n == 0 then [] else SamplesUpTo(slope, n - 1) + [Sample(n, slope * n)]
  }

  function SamplesForShard(shardId: nat): seq<Sample> { SamplesUpTo(Slope(shardId), 8) }

  // ----- the source's arithmetic, saturating at every operation

  function Error(value: int, s: Sample): int { SatI64(SatI64(value * s.feature) - s.target) }

  function GradientSum(value: int, samples: seq<Sample>): int {
    if samples == [] then 0
    else
      var last := samples[|samples| - 1];
      SatI64(GradientSum(value, samples[..|samples| - 1]) + SatI64(Error(value, last) * last.feature))
  }

  function Gradient(value: int, samples: seq<Sample>): int {
    TruncDiv(GradientSum(value, samples), Max(|samples|, 1))
  }

  function StepFrom(value: int, samples: seq<Sample>): int {
    SatI64(value - TruncDiv(Gradient(value, samples) * LEARNING_RATE, TRAINING_SCALE))
  }

  /** The value after `steps` local steps. */
  function Train(value: int, samples: seq<Sample>, steps: nat): int {
    if steps == 0 then value else StepFrom(Train(value, samples, steps - 1), samples)
  }

  /** `compute_update`: the new value and the last gradient. */
  method ComputeUpdate(value: int, optimizer: int, samples: seq<Sample>, localSteps: nat)
    returns (value': int, optimizer': int)
    ensures value' == Train(value, samples, localSteps)
    ensures optimizer'
            == if localSteps == 0 then optimizer else Gradient(Train(value, samples, localSteps - 1), samples)
  {
    value', optimizer' := value, optimizer;
    for step := 0 to localSteps
      invariant value' == Train(value, samples, step)
      invariant optimizer' == if step == 0 then optimizer else Gradient(Train(value, samples, step - 1), samples)
    {
      var sum := 0;
      for i := 0 to |samples|
        invariant sum == GradientSum(value', samples[..i])
      {
        assert samples[..i + 1][..i] == samples[..i];
        var prediction := SatI64(value' * samples[i].feature);
        var error := SatI64(prediction - samples[i].target);
        sum := SatI64(sum + SatI64(error * samples[i].feature));
      }
      assert samples[..|samples|] == samples;
      var gradient := TruncDiv(sum, Max(|samples|, 1));
      optimizer' := gradient;
      value' := SatI64(value' - TruncDiv(gradient * LEARNING_RATE, TRAINING_SCALE));
    }
  }

  /** `samples_loss`; the squares are summed without saturation. */
  function LossSum(value: int, samples: seq<Sample>): int {
    if samples == [] then 0
    else
      var e := Error(value, samples[|samples| - 1]);
      LossSum(value, samples[..|samples| - 1]) + SatI64(e * e)
  }

  function Loss(value: int, samples: seq<Sample>): int {
    if samples == [] then 0 else TruncDiv(LossSum(value, samples), |samples|)
  }

  // ----- without saturation

  /** Nothing saturates this close to the slope. */
  ghost predicate Tame(value: int, slope: int) {
    2 <= slope <= 3 && 204 * Abs(value - slope) + 24 <= I64_MAX
  }

  function Squares(n: nat): nat { if n == 0 then 0 else Squares(n - 1) + n * n }

  lemma SquaresOfEight()
    ensures Squares(8) == 204
    ensures forall n :: 0 <= n <= 8 ==> Squares(n) <= 204
  {
    assert Squares(1) == 1 && Squares(2) == 5 && Squares(3) == 14 && Squares(4) == 30;
    assert Squares(5) == 55 && Squares(6) == 91 && Squares(7) == 140;
  }

  lemma Products(d: int, n: nat)
    requires n <= 8
    ensures Abs(d * n) <= 8 * Abs(d)
    ensures d * n * n == d * (n * n) && Abs(d * (n * n)) <= 64 * Abs(d)
    ensures Abs(d * Squares(n)) <= 204 * Abs(d)
  {
    SquaresOfEight();
    AbsProduct(d, n, 8);
    AbsProduct(d, Squares(n), 204);
    assert n * n <= 64;
    AbsProduct(d, n * n, 64);
  }

  lemma AbsProduct(d: int, m: nat, bound: nat)
    requires m <= bound
    ensures Abs(d * m) <= bound * Abs(d)
  {
    MulLe(m, bound, Abs(d));
    assert Abs(d * m) == m * Abs(d);
  }

  /** The error on the sample with feature `n` is the distance to the slope, n times. */
  lemma ErrorIs(value: int, slope: int, n: nat)
    requires Tame(value, slope) && 1 <= n <= 8
    ensures Error(value, Sample(n, slope * n)) == (value - slope) * n
  {
    var d := value - slope;
    Products(d, n);
    assert value * n == d * n + slope * n;
    assert 0 <= slope * n <= 24;
  }

  lemma InRange(x: int)
    requires Abs(x) <= I64_MAX
    ensures SatI64(x) == x
  {
  }

  /** Adding the term of feature `n` to the sum of the first n - 1. */
  lemma SumStep(d: int, n: nat)
    requires 1 <= n <= 8 && 204 * Abs(d) <= I64_MAX
    ensures SatI64(d * Squares(n - 1) + SatI64((d * n) * n)) == d * Squares(n)
  {
    Products(d, n);
    InRange(d * (n * n));
    Distribute(d, Squares(n - 1), n * n);
    InRange(d * Squares(n));
  }

  lemma Distribute(d: int, x: int, y: int)
    ensures d * (x + y) == d * x + d * y
  {
  }

  lemma SamplesLast(slope: int, n: nat)
    requires n > 0
    ensures var s := SamplesUpTo(slope, n);
            s != [] && s[..|s| - 1] == SamplesUpTo(slope, n - 1) && s[|s| - 1] == Sample(n, slope * n)
  {
  }

  lemma {:induction false} GradientSumIs(value: int, slope: int, n: nat)
    requires Tame(value, slope) && n <= 8
    ensures GradientSum(value, SamplesUpTo(slope, n)) == (value - slope) * Squares(n)
  {
    if n > 0 {
      GradientSumIs(value, slope, n - 1);
      SamplesLast(slope, n);
      ErrorIs(value, slope, n);
      SumStep(value - slope, n);
    }
  }

  lemma {:induction false} SamplesCount(slope: int, n: nat)
    ensures |SamplesUpTo(slope, n)| == n
  {
    if n > 0 {
      SamplesCount(slope, n - 1);
    }
  }

  /** Both truncating divisions together divide by 40. */
  lemma Divisions(d: nat)
    ensures TruncDiv(TruncDiv(204 * d, 8) * LEARNING_RATE, TRAINING_SCALE) == 51 * d / 40
    ensures 51 * d / 40 == d + 11 * d / 40
  {
    var q := 51 * d / 2;
    assert 204 * d / 8 == q;
    assert q * 50_000 / 1_000_000 == q / 20;
  }

  lemma Delta(d: int)
    ensures var delta := TruncDiv(TruncDiv(204 * d, 8) * LEARNING_RATE, TRAINING_SCALE);
            delta == if d >= 0 then d + 11 * d / 40 else d - 11 * (-d) / 40
  {
    Divisions(Abs(d));
    if d < 0 {
      assert 204 * d == -(204 * -d);
      assert TruncDiv(204 * d, 8) == -TruncDiv(204 * -d, 8);
    }
  }

  /**
   One step through all truncating divisions: the new distance to the slope is
   exactly the floor of 11/40 of the old one, on the other side.
   */
  lemma StepContracts(value: int, shardId: nat)
    requires Tame(value, Slope(shardId))
    ensures var next := StepFrom(value, SamplesForShard(shardId));
            && Abs(next - Slope(shardId)) == 11 * Abs(value - Slope(shardId)) / 40
            && (value >= Slope(shardId) ==> next <= Slope(shardId))
            && (value <= Slope(shardId) ==> next >= Slope(shardId))
            && Tame(next, Slope(shardId))
  {
    GradientIs(value, shardId);
    Delta(value - Slope(shardId));
  }

  lemma GradientIs(value: int, shardId: nat)
    requires Tame(value, Slope(shardId))
    ensures Gradient(value, SamplesForShard(shardId)) == TruncDiv(204 * (value - Slope(shardId)), 8)
  {
    WholeSum(value, Slope(shardId));
    SamplesCount(Slope(shardId), 8);
    GradientFrom(value, SamplesForShard(shardId), 204 * (value - Slope(shardId)));
  }

  lemma WholeSum(value: int, slope: int)
    requires Tame(value, slope)
    ensures GradientSum(value, SamplesUpTo(slope, 8)) == 204 * (value - slope)
  {
    GradientSumIs(value, slope, 8);
    TimesSquares(value - slope);
  }

  lemma TimesSquares(d: int)
    ensures d * Squares(8) == 204 * d
  {
    SquaresOfEight();
  }

  lemma GradientFrom(value: int, samples: seq<Sample>, sum: int)
    requires GradientSum(value, samples) == sum && |samples| == 8
    ensures Gradient(value, samples) == TruncDiv(sum, 8)
  {
  }

  function Gap(value: int, shardId: nat): nat { Abs(value - Slope(shardId)) }

  lemma StepThirds(value: int, shardId: nat)
    requires Tame(value, Slope(shardId))
    ensures var next := StepFrom(value, SamplesForShard(shardId));
            Tame(next, Slope(shardId)) && 3 * Gap(next, shardId) <= Gap(value, shardId)
  {
    StepContracts(value, shardId);
  }

  lemma ThirdAgain(power: nat, a: nat, b: nat, start: nat)
    requires 3 * b <= a && power * a <= start
    ensures (3 * power) * b <= start
  {
    MulLe(3 * b, a, power);
    assert (3 * power) * b == (3 * b) * power && a * power == power * a;
  }

  lemma TooManyThirds(power: nat, b: nat, start: nat)
    requires power * b <= start && start < power
    ensures b == 0
  {
    if b >= 1 {
      MulLe(1, b, power);
    }
  }

  /** The slope is the only value a step leaves alone. */
  lemma OnlyFixedPoint(value: int, shardId: nat)
    requires Tame(value, Slope(shardId))
    ensures StepFrom(value, SamplesForShard(shardId)) == value <==> value == Slope(shardId)
  {
    StepContracts(value, shardId);
  }

  function Pow3(n: nat): (p: nat)
    ensures p >= 1
  {
    if n == 0 then 1 else 3 * Pow3(n - 1)
  }

  /** Every step at least thirds the distance. */
  lemma {:induction false} TrainContracts(value: int, shardId: nat, steps: nat)
    requires Tame(value, Slope(shardId))
    ensures var v := Train(value, SamplesForShard(shardId), steps);
            Tame(v, Slope(shardId)) && Pow3(steps) * Gap(v, shardId) <= Gap(value, shardId)
  {
    if steps > 0 {
      var samples := SamplesForShard(shardId);
      TrainContracts(value, shardId, steps - 1);
      var before := Train(value, samples, steps - 1);
      StepThirds(before, shardId);
      ThirdAgain(Pow3(steps - 1), Gap(before, shardId), Gap(StepFrom(before, samples), shardId), Gap(value, shardId));
    }
  }

  /** From any tame start the slope is reached exactly, in a number of steps logarithmic in the distance. */
  lemma TrainReachesSlope(value: int, shardId: nat, steps: nat)
    requires Tame(value, Slope(shardId)) && Pow3(steps) > Gap(value, shardId)
    ensures Train(value, SamplesForShard(shardId), steps) == Slope(shardId)
  {
    TrainContracts(value, shardId, steps);
    TooManyThirds(Pow3(steps), Gap(Train(value, SamplesForShard(shardId), steps), shardId), Gap(value, shardId));
  }

  // ----- the loss

  lemma {:induction false} LossSumIs(value: int, slope: int, n: nat)
    requires Tame(value, slope) && n <= 8 && 64 * (value - slope) * (value - slope) <= I64_MAX
    ensures LossSum(value, SamplesUpTo(slope, n)) == (value - slope) * (value - slope) * Squares(n)
  {
    if n > 0 {
      LossSumIs(value, slope, n - 1);
      var d := value - slope;
      SamplesLast(slope, n);
      ErrorIs(value, slope, n);
      SquareTerm(d, n);
      InRange((d * n) * (d * n));
      Distribute(d * d, Squares(n - 1), n * n);
    }
  }

  lemma SquareTerm(d: int, n: nat)
    requires n <= 8 && 64 * d * d <= I64_MAX
    ensures (d * n) * (d * n) == d * d * (n * n)
    ensures 0 <= (d * n) * (d * n) <= I64_MAX
  {
    SquareOfProduct(d, n);
    SmallSquare(n);
    MulLe(0, d * d, 64);
    MulLe(n * n, 64, d * d);
    MulLe(0, n * n, d * d);
  }

  lemma SquareOfProduct(d: int, n: int)
    ensures (d * n) * (d * n) == d * d * (n * n) && 64 * (d * d) == 64 * d * d && d * d >= 0
  {
    assert (d * n) * (d * n) == d * (n * (d * n));
    assert n * (d * n) == d * (n * n);
  }

  lemma SmallSquare(n: nat)
    requires n <= 8
    ensures 0 <= n * n <= 64
  {
    MulLe(n, 8, n);
    MulLe(n, 8, 8);
  }

  /** What the sample with feature `n` adds, at distance `d` from the slope. */
  function SquareAt(d: int, n: nat): int { SatI64((d * n) * (d * n)) }

  lemma LossStep(value: int, slope: int, n: nat)
    requires Tame(value, slope) && 1 <= n <= 8
    ensures LossSum(value, SamplesUpTo(slope, n))
            == LossSum(value, SamplesUpTo(slope, n - 1)) + SquareAt(value - slope, n)
  {
    SamplesLast(slope, n);
    ErrorIs(value, slope, n);
  }

  lemma SquarePositive(d: int, n: nat)
    requires d != 0 && n > 0
    ensures SquareAt(d, n) >= 1
  {
    assert d * n != 0;
  }

  lemma SquareSaturates(d: int)
    requires 64 * d * d > I64_MAX
    ensures SquareAt(d, 8) == I64_MAX
  {
    assert (d * 8) * (d * 8) == 64 * d * d;
  }

  /** Away from the slope every sample adds to the sum. */
  lemma {:induction false} LossSumGrows(value: int, slope: int, n: nat)
    requires Tame(value, slope) && n <= 8 && value != slope
    ensures LossSum(value, SamplesUpTo(slope, n)) >= n
  {
    if n > 0 {
      LossSumGrows(value, slope, n - 1);
      LossStep(value, slope, n);
      SquarePositive(value - slope, n);
    }
  }

  /** Once the square of the largest error saturates, the sum is past an `i64`. */
  lemma SaturatedSum(value: int, slope: int)
    requires Tame(value, slope) && 64 * (value - slope) * (value - slope) > I64_MAX
    ensures LossSum(value, SamplesUpTo(slope, 8)) > I64_MAX
  {
    LossSumGrows(value, slope, 7);
    LossStep(value, slope, 8);
    SquareSaturates(value - slope);
  }

  lemma SumFits(value: int, shardId: nat)
    requires Tame(value, Slope(shardId)) && LossSum(value, SamplesForShard(shardId)) <= I64_MAX
    ensures 64 * (value - Slope(shardId)) * (value - Slope(shardId)) <= I64_MAX
  {
    if 64 * (value - Slope(shardId)) * (value - Slope(shardId)) > I64_MAX {
      SaturatedSum(value, Slope(shardId));
    }
  }

  lemma LossIs(value: int, shardId: nat)
    requires Tame(value, Slope(shardId)) && 64 * (value - Slope(shardId)) * (value - Slope(shardId)) <= I64_MAX
    ensures Loss(value, SamplesForShard(shardId))
            == 204 * ((value - Slope(shardId)) * (value - Slope(shardId))) / 8
  {
    var d := value - Slope(shardId);
    LossSumIs(value, Slope(shardId), 8);
    SquaresOfEight();
    SamplesCount(Slope(shardId), 8);
    assert d * d >= 0;
    assert d * d * 204 == 204 * (d * d);
  }

  /** Where the sum of squares fits an `i64`, no step increases the loss. */
  lemma LossNeverIncreases(value: int, shardId: nat)
    requires Tame(value, Slope(shardId)) && LossSum(value, SamplesForShard(shardId)) <= I64_MAX
    ensures Loss(StepFrom(value, SamplesForShard(shardId)), SamplesForShard(shardId))
            <= Loss(value, SamplesForShard(shardId))
  {
    var slope := Slope(shardId);
    var next := StepFrom(value, SamplesForShard(shardId));
    StepContracts(value, shardId);
    var a, b := value - slope, next - slope;
    SumFits(value, shardId);
    SquareMonotone(b, a);
    LossIs(value, shardId);
    LossIs(next, shardId);
    DivLe(204 * (b * b), 204 * (a * a), 8);
  }

  lemma SquareMonotone(b: int, a: int)
    requires Abs(b) <= Abs(a)
    ensures 0 <= b * b <= a * a && 64 * b * b <= 64 * a * a
  {
    MulLe(Abs(b), Abs(a), Abs(b));
    MulLe(Abs(b), Abs(a), Abs(a));
    assert Abs(b) * Abs(b) == b * b && Abs(a) * Abs(a) == a * a;
    assert 64 * b * b == 64 * (b * b) && 64 * a * a == 64 * (a * a);
  }

  // ----- a group of workers

  /** `median` of the group: the upper middle of the sorted values. */
  function GroupMedian(values: seq<int>): int
    requires values != []
  {
    Sorted(values)[|values| / 2]
  }

  /** A value that more than half of the workers report is the value of the group. */
  lemma MajorityValueWins(values: seq<int>, x: int)
    requires values != [] && 2 * CountIn(values, x, x) > |values|
    ensures GroupMedian(values) == x
  {
    CountSorted(values, x, x);
    PositionInRange(Sorted(values), |values| / 2, x, x);
  }

  /** One window: the workers' answers, more than half of them computed from the group's value. */
  ghost predicate HonestMajority(value: int, shardId: nat, steps: nat, answers: seq<int>) {
    answers != []
    && var honest := Train(value, SamplesForShard(shardId), steps);
       2 * CountIn(answers, honest, honest) > |answers|
  }

  /** The group's value after every window of `windows`. */
  ghost predicate IsGroupRun(values: seq<int>, windows: seq<seq<int>>, shardId: nat, steps: nat) {
    && |values| == |windows| + 1
    && forall i :: 0 <= i < |windows| ==>
         HonestMajority(values[i], shardId, steps, windows[i]) && values[i + 1] == GroupMedian(windows[i])
  }

  lemma {:induction false} GroupContracts(values: seq<int>, windows: seq<seq<int>>, shardId: nat, steps: nat, n: nat)
    requires IsGroupRun(values, windows, shardId, steps) && steps >= 1 && n <= |windows|
    requires Tame(values[0], Slope(shardId))
    ensures Tame(values[n], Slope(shardId)) && Pow3(n) * Gap(values[n], shardId) <= Gap(values[0], shardId)
  {
    if n > 0 {
      GroupContracts(values, windows, shardId, steps, n - 1);
      NextWindow(values, windows, shardId, steps, n - 1);
      ThirdAgain(Pow3(n - 1), Gap(values[n - 1], shardId), Gap(values[n], shardId), Gap(values[0], shardId));
    }
  }

  lemma NextWindow(values: seq<int>, windows: seq<seq<int>>, shardId: nat, steps: nat, i: nat)
    requires IsGroupRun(values, windows, shardId, steps) && steps >= 1 && i < |windows|
    requires Tame(values[i], Slope(shardId))
    ensures Tame(values[i + 1], Slope(shardId)) && 3 * Gap(values[i + 1], shardId) <= Gap(values[i], shardId)
  {
    assert HonestMajority(values[i], shardId, steps, windows[i]) && values[i + 1] == GroupMedian(windows[i]);
    MajorityValueWins(windows[i], Train(values[i], SamplesForShard(shardId), steps));
    WindowContracts(values[i], shardId, steps);
  }

  lemma WindowContracts(value: int, shardId: nat, steps: nat)
    requires Tame(value, Slope(shardId)) && steps >= 1
    ensures var v := Train(value, SamplesForShard(shardId), steps);
            Tame(v, Slope(shardId)) && 3 * Gap(v, shardId) <= Gap(value, shardId)
  {
    TrainContracts(value, shardId, steps);
    MulLe(3, Pow3(steps), Gap(Train(value, SamplesForShard(shardId), steps), shardId));
  }

  /**
   A group in which more than half of the answers to every window are honest
   reaches the slope exactly, whatever the others answer, after a number of
   windows logarithmic in the initial distance, and stays there.
   */
  lemma GroupConverges(values: seq<int>, windows: seq<seq<int>>, shardId: nat, steps: nat, n: nat)
    requires IsGroupRun(values, windows, shardId, steps) && steps >= 1 && n <= |windows|
    requires Tame(values[0], Slope(shardId)) && Pow3(n) > Gap(values[0], shardId)
    ensures values[n] == Slope(shardId)
  {
    GroupContracts(values, windows, shardId, steps, n);
    TooManyThirds(Pow3(n), Gap(values[n], shardId), Gap(values[0], shardId));
  }
}

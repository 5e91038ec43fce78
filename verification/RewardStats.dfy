/** The reward statistics of `scripts/report_difficulty_auction.py`, over exact reals. */
module RewardStats {
  import opened Wrappers

  /** `MAX_UNIT_INTERVAL_STD`: one half plus 1e-12 of slack. */
  const MAX_UNIT_INTERVAL_STD: real := 0.500000000001

  datatype Stats = Stats(mean: real, std: real, count: nat)

  /** The fields of an archive entry that carry statistics. A raw number is `None` when it is missing or
      does not convert to a finite float. A reward list is `None` when the field is not a usable list. */
  datatype StatFields = StatFields(
    mean: Option<real>, std: Option<real>, count: Option<int>,
    rollouts: Option<seq<Option<real>>>, rewardVector: Option<seq<Option<real>>>)

  predicate InUnit(x: real) { 0.0 <= x <= 1.0 }

  predicate ValidReward(raw: Option<real>) { raw.Some? && InUnit(raw.value) }

  /** `sqrt` is the real square root on non-negative numbers. */
  ghost predicate IsSqrt(sqrt: real -> real)
  {
    forall x: real :: x >= 0.0 ==> sqrt(x) >= 0.0 && sqrt(x) * sqrt(x) == x
  }

  function Sum(s: seq<real>): real
  {
    if s == [] then 0.0 else s[0] + Sum(s[1..])
  }

  function Mean(s: seq<real>): real
    requires s != []
  {
    Sum(s) / |s| as real
  }

  /** Multiplication under a name, so that a proof can hide what it does not need to know of it. */
  function Times(a: real, b: real): real { a * b }

  /** The sum of the squared distances from `m`. */
  function SquaredDeviations(s: seq<real>, m: real): real
  {
    if s == [] then 0.0 else Times(s[0] - m, s[0] - m) + SquaredDeviations(s[1..], m)
  }

  function Variance(s: seq<real>): real
    requires s != []
  {
    SquaredDeviations(s, Mean(s)) / |s| as real
  }

  predicate AllValid(rewards: seq<Option<real>>)
  {
    forall i :: 0 <= i < |rewards| ==> ValidReward(rewards[i])
  }

  function Values(rewards: seq<Option<real>>): seq<real>
    requires AllValid(rewards)
  {
    seq(|rewards|, i requires 0 <= i < |rewards| && ValidReward(rewards[i]) => rewards[i].value)
  }

  function StatsOf(rewards: seq<Option<real>>, sqrt: real -> real): Option<Stats>
  {
    if rewards != [] && AllValid(rewards) then
      var values := Values(rewards);
      Some(Stats(Mean(values), sqrt(Variance(values)), |values|))
    else
      None
  }

  /** `_reward_stats`: refuses an empty list and any reward outside the unit interval. */
  method ComputeStats(rewards: seq<Option<real>>, sqrt: real -> real) returns (r: Option<Stats>)
    ensures r == StatsOf(rewards, sqrt)
  {
    var values := [];
    for i := 0 to |rewards|
      invariant |values| == i
      invariant forall j :: 0 <= j < i ==> ValidReward(rewards[j]) && values[j] == rewards[j].value
    {
      if !ValidReward(rewards[i]) {
        return None;
      }
      values := values + [rewards[i].value];
    }
    if values == [] {
      return None;
    }
    assert values == Values(rewards);
    return Some(Stats(Mean(values), sqrt(Variance(values)), |values|));
  }

  /** `_entry_stats`: stored statistics when they are plausible, else rollouts, else the reward vector. */
  function EntryStats(e: StatFields, sqrt: real -> real): Option<Stats>
  {
    if ValidReward(e.mean) && e.std.Some? && 0.0 <= e.std.value <= MAX_UNIT_INTERVAL_STD
       && e.count.Some? && e.count.value > 0
    then Some(Stats(e.mean.value, e.std.value, e.count.value))
    else if e.rollouts.Some? && StatsOf(e.rollouts.value, sqrt).Some? then StatsOf(e.rollouts.value, sqrt)
    else if e.rewardVector.Some? then StatsOf(e.rewardVector.value, sqrt)
    else None
  }

  // ---------------------------------------------------------------- the variance inequality

  predicate AllUnit(s: seq<real>)
  {
    forall i :: 0 <= i < |s| ==> InUnit(s[i])
  }

  predicate AllBinary(s: seq<real>)
  {
    forall i :: 0 <= i < |s| ==> s[i] == 0.0 || s[i] == 1.0
  }

  /** What separates the rewards from 0/1 values. */
  function Spread(s: seq<real>): real
  {
    if s == [] then 0.0 else Times(s[0], 1.0 - s[0]) + Spread(s[1..])
  }

  lemma SquareExpands(x: real, m: real)
    ensures Times(x - m, x - m) + Times(x, 1.0 - x) == x - 2.0 * Times(m, x) + Times(m, m)
  {
  }

  lemma TimesUnits(a: real)
    ensures Times(a, 0.0) == 0.0 && Times(a, 1.0) == a
  {
  }

  lemma TimesDistributes(a: real, b: real, c: real)
    ensures Times(a, b + c) == Times(a, b) + Times(a, c)
  {
  }

  lemma {:induction false} DeviationIdentity(s: seq<real>, m: real)
    ensures SquaredDeviations(s, m) + Spread(s) == Sum(s) - 2.0 * Times(m, Sum(s)) + Times(Times(m, m), |s| as real)
  {
    hide Times;
    if s == [] {
      TimesUnits(m);
      TimesUnits(Times(m, m));
    } else {
      DeviationIdentity(s[1..], m);
      TimesUnits(Times(m, m));
      SquareExpands(s[0], m);
      TimesDistributes(m, s[0], Sum(s[1..]));
      TimesDistributes(Times(m, m), 1.0, |s[1..]| as real);
    }
  }

  lemma UnitProduct(x: real)
    requires InUnit(x)
    ensures Times(x, 1.0 - x) >= 0.0
    ensures Times(x, 1.0 - x) == 0.0 <==> x == 0.0 || x == 1.0
  {
    if 0.0 < x < 1.0 {
      ProductPositive(x, 1.0 - x);
    }
  }

  lemma ProductPositive(a: real, b: real)
    requires a > 0.0 && b > 0.0
    ensures Times(a, b) > 0.0
  {
  }

  lemma {:induction false} SpreadZero(s: seq<real>)
    requires AllUnit(s)
    ensures Spread(s) >= 0.0
    ensures Spread(s) == 0.0 <==> AllBinary(s)
  {
    if s != [] {
      hide Times;
      SpreadZero(s[1..]);
      UnitProduct(s[0]);
      assert AllBinary(s) <==> (s[0] == 0.0 || s[0] == 1.0) && AllBinary(s[1..]) by {
        assert s == [s[0]] + s[1..];
      }
    }
  }

  lemma {:induction false} SumInRange(s: seq<real>)
    requires AllUnit(s)
    ensures 0.0 <= Sum(s) <= |s| as real
  {
    if s != [] {
      SumInRange(s[1..]);
      assert InUnit(s[0]);
    }
  }

  lemma SquareNonNegative(x: real)
    ensures Times(x, x) >= 0.0
    ensures x != 0.0 ==> Times(x, x) > 0.0
  {
    if x > 0.0 {
      ProductPositive(x, x);
    } else if x < 0.0 {
      ProductPositive(-x, -x);
      assert Times(-x, -x) == Times(x, x);
    }
  }

  lemma {:induction false} DeviationsNonNegative(s: seq<real>, m: real)
    ensures SquaredDeviations(s, m) >= 0.0
  {
    hide Times;
    if s != [] {
      DeviationsNonNegative(s[1..], m);
      SquareNonNegative(s[0] - m);
    }
  }

  lemma MeanTimesCount(sum: real, n: real, m: real)
    requires n > 0.0 && m == sum / n
    ensures Times(m, n) == sum
    ensures Times(Times(m, m), n) == Times(m, sum)
  {
    assert m * n == sum;
    assert m * m * n == m * (m * n);
  }

  lemma QuotientOfSum(a: real, b: real, n: real, q: real)
    requires n > 0.0 && a + b == Times(q, n)
    ensures a / n + b / n == q
  {
    assert a / n + b / n == (a + b) / n;
  }

  lemma MeanProduct(m: real, n: real)
    ensures Times(m, n) - Times(Times(m, m), n) == Times(Times(m, 1.0 - m), n)
  {
    assert m * n - m * m * n == (m * (1.0 - m)) * n;
  }

  /** The deviation identity divided by the number of rewards. */
  lemma VarianceSplit(s: seq<real>)
    requires s != []
    ensures Variance(s) + Spread(s) / |s| as real == Times(Mean(s), 1.0 - Mean(s))
  {
    hide Times, Sum, Spread, SquaredDeviations;
    var n, m := |s| as real, Mean(s);
    DeviationIdentity(s, m);
    MeanTimesCount(Sum(s), n, m);
    MeanProduct(m, n);
    QuotientOfSum(SquaredDeviations(s, m), Spread(s), n, Times(m, 1.0 - m));
  }

  lemma HalfIsBest(m: real)
    ensures m == 0.5 ==> Times(m, 1.0 - m) == 0.25
    ensures m != 0.5 ==> Times(m, 1.0 - m) < 0.25
  {
    var d := m - 0.5;
    assert Times(m, 1.0 - m) == 0.25 - Times(d, d);
    hide Times;
    SquareNonNegative(d);
    if m == 0.5 {
      TimesUnits(d);
    }
  }

  lemma ZeroQuotient(a: real, n: real)
    requires n > 0.0 && a >= 0.0
    ensures a / n >= 0.0
    ensures a / n == 0.0 <==> a == 0.0
  {
  }

  /** For rewards in the unit interval the variance is at most mean times one minus mean, hence at most a
      quarter. The first bound is attained exactly by 0/1 rewards, the second exactly by 0/1 rewards of mean
      one half. */
  lemma VarianceBound(s: seq<real>)
    requires s != [] && AllUnit(s)
    ensures Variance(s) <= Mean(s) * (1.0 - Mean(s)) <= 0.25
    ensures Variance(s) == Mean(s) * (1.0 - Mean(s)) <==> AllBinary(s)
    ensures Variance(s) == 0.25 <==> Mean(s) == 0.5 && AllBinary(s)
  {
    assert Mean(s) * (1.0 - Mean(s)) == Times(Mean(s), 1.0 - Mean(s));
    hide Times, Sum, Spread, SquaredDeviations;
    VarianceSplit(s);
    SpreadZero(s);
    ZeroQuotient(Spread(s), |s| as real);
    HalfIsBest(Mean(s));
  }

  /** Statistics that were computed from rewards and stored in an entry are read back unchanged: the
      plausibility bound on the stored deviation never rejects one that `ComputeStats` produced, whatever
      else the entry holds. */
  lemma StoredStatsSurvive(rewards: seq<Option<real>>, sqrt: real -> real, e: StatFields)
    requires IsSqrt(sqrt)
    requires StatsOf(rewards, sqrt).Some?
    requires var st := StatsOf(rewards, sqrt).value;
             e.mean == Some(st.mean) && e.std == Some(st.std) && e.count == Some(st.count)
    ensures EntryStats(e, sqrt) == StatsOf(rewards, sqrt)
    ensures StatsOf(rewards, sqrt).value.std <= 0.5
  {
    var values := Values(rewards);
    SumInRange(values);
    VarianceBound(values);
    DeviationsNonNegative(values, Mean(values));
    ZeroQuotient(SquaredDeviations(values, Mean(values)), |values| as real);
    RootBelowHalf(sqrt(Variance(values)));
  }

  lemma RootBelowHalf(d: real)
    requires d >= 0.0 && d * d <= 0.25
    ensures d <= 0.5
  {
  }
}

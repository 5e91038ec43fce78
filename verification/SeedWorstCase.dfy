/** What the chosen group says about every other group of the pool. */
module SeedWorstCase {
  import opened Wrappers
  import opened Orders
  import opened SeedChoice
  import opened Sets

  // ---------------------------------------------------------------- the exchange property

  /** No seed left out has a smaller value than a seed taken. */
  ghost predicate TakesTheSmallest(g: int -> real, taken: seq<int>, seeds: seq<int>)
  {
    forall x, y :: x in taken && y in seeds && y !in taken ==> g(x) <= g(y)
  }

  lemma TakenIsSmaller(g: int -> real, taken: seq<int>, seeds: seq<int>, x: int, y: int)
    requires TakesTheSmallest(g, taken, seeds) && x in taken && y in seeds && y !in taken
    ensures g(x) <= g(y)
  {
  }

  lemma FrontTakesTheSmallest(ranked: seq<int>, m: nat, le: (int, int) -> bool, g: int -> real)
    requires m <= |ranked| && Sorted(ranked, le) && forall a, b :: le(a, b) ==> g(a) <= g(b)
    ensures TakesTheSmallest(g, ranked[..m], ranked)
  {
    forall x, y | x in ranked[..m] && y in ranked && y !in ranked[..m]
      ensures g(x) <= g(y)
    {
      var i :| 0 <= i < m && ranked[i] == x;
      var j :| 0 <= j < |ranked| && ranked[j] == y;
      assert forall k :: 0 <= k < m ==> ranked[k] in ranked[..m];
      assert le(ranked[i], ranked[j]);
    }
  }

  /** The value that a pick minimises. */
  function Cost(pick: Pick, of: int -> real): int -> real
  {
    s => if pick == HighestAgreement then -of(s) else of(s)
  }

  lemma RankLeIsOrder(of: int -> real, pick: Pick)
    ensures TotalPreorder(RankLe(of, pick == HighestAgreement))
    ensures forall a, b :: RankLe(of, pick == HighestAgreement)(a, b) ==> Cost(pick, of)(a) <= Cost(pick, of)(b)
  {
  }

  lemma ChosenTakesTheSmallest(pool: Pool, pick: Pick, agreement: Agreements)
    requires Published(pool) && Distinct(agreement.seeds) && ChooseSeeds(pool, pick, agreement).Ok?
    requires pick == LowestAgreement || pick == HighestAgreement
    ensures TakesTheSmallest(Cost(pick, agreement.of), ChooseSeeds(pool, pick, agreement).value, agreement.seeds)
  {
    var le, ranked := RankLe(agreement.of, pick == HighestAgreement), Ranked(agreement, pick == HighestAgreement);
    ChoiceIsAGroup(pool, pick, agreement);
    RankLeIsOrder(agreement.of, pick);
    SortSorts(Sort(agreement.seeds, SeedLe), le);
    RankedPermutes(agreement, pick == HighestAgreement);
    assert Taken(pool.groupSize, pick, agreement) == ranked[..pool.groupSize];
    hide Sort, Ranked, RankLe, Cost, Taken, TotalPreorder, ChooseSeeds;
    FrontTakesTheSmallest(ranked, pool.groupSize, le, Cost(pick, agreement.of));
  }

  // ---------------------------------------------------------------- dominance

  ghost predicate Among(t: seq<int>, seeds: seq<int>) { forall x :: x in t ==> x in seeds }

  /** A list of different seeds in the order of their values. */
  ghost predicate Rising(g: int -> real, s: seq<int>)
  {
    Distinct(s) && forall i, j :: 0 <= i < j < |s| ==> g(s[i]) <= g(s[j])
  }

  lemma ElementsCons<T>(x: T, s: seq<T>)
    ensures Elements([x] + s) == {x} + Elements(s)
  {
  }

  lemma {:induction false} DistinctCount<T>(s: seq<T>)
    ensures |Elements(s)| <= |s|
    ensures Distinct(s) ==> |Elements(s)| == |s|
  {
    if s != [] {
      DistinctCount(s[1..]);
      ElementsCons(s[0], s[1..]);
      assert s == [s[0]] + s[1..];
      assert Distinct(s) ==> s[0] !in s[1..];
    }
  }

  /** If the `i`-th of `t` were smaller than the `i`-th of `a`, the first `i + 1` of `t` would be among the first `i` of
      `a`. */
  lemma WouldBeInFront(g: int -> real, a: seq<int>, t: seq<int>, seeds: seq<int>, i: nat)
    requires Rising(g, a) && Rising(g, t) && Among(t, seeds) && TakesTheSmallest(g, a, seeds)
    requires i < |a| && i < |t| && g(t[i]) < g(a[i])
    ensures Elements(t[..i + 1]) <= Elements(a[..i])
  {
    forall x | x in t[..i + 1]
      ensures x in a[..i]
    {
      var k :| 0 <= k <= i && t[k] == x;
      assert g(x) <= g(t[i]);
      assert x in seeds && a[i] in a;
      if x !in a {
        TakenIsSmaller(g, a, seeds, a[i], x);
      }
      var p :| 0 <= p < |a| && a[p] == x;
      assert p < i;
      assert a[..i][p] == x;
    }
  }

  lemma SmallestDominates(g: int -> real, a: seq<int>, t: seq<int>, seeds: seq<int>, i: nat)
    requires Rising(g, a) && Rising(g, t) && Among(t, seeds) && TakesTheSmallest(g, a, seeds)
    requires i < |a| && i < |t|
    ensures g(a[i]) <= g(t[i])
  {
    if g(t[i]) < g(a[i]) {
      WouldBeInFront(g, a, t, seeds, i);
      assert Distinct(t[..i + 1]);
      DistinctCount(t[..i + 1]);
      DistinctCount(a[..i]);
      CardMonotone(Elements(t[..i + 1]), Elements(a[..i]));
    }
  }

  /** The lowest-agreement group is pointwise lowest: listed by rising agreement, its `i`-th agreement is at most the
      `i`-th of any other group of the generated seeds. The highest-agreement group, listed by falling agreement, is
      pointwise highest. */
  lemma ChoiceDominates(pool: Pool, pick: Pick, agreement: Agreements, a: seq<int>, t: seq<int>, i: nat)
    requires Published(pool) && Distinct(agreement.seeds) && ChooseSeeds(pool, pick, agreement).Ok?
    requires pick == LowestAgreement || pick == HighestAgreement
    requires Rising(Cost(pick, agreement.of), a) && Rising(Cost(pick, agreement.of), t)
    requires multiset(a) == multiset(ChooseSeeds(pool, pick, agreement).value)
    requires Among(t, agreement.seeds) && |t| == pool.groupSize && i < pool.groupSize
    ensures i < |a|
    ensures if pick == HighestAgreement then agreement.of(a[i]) >= agreement.of(t[i])
            else agreement.of(a[i]) <= agreement.of(t[i])
  {
    ChoiceIsAGroup(pool, pick, agreement);
    ChosenTakesTheSmallest(pool, pick, agreement);
    var chosen := ChooseSeeds(pool, pick, agreement).value;
    SameElements(a, chosen);
    hide ChooseSeeds, Taken;
    SmallestDominates(Cost(pick, agreement.of), a, t, agreement.seeds, i);
  }

  // ---------------------------------------------------------------- the floor for single rollouts

  /** Positions judged in a rollout, those that match, and those that no sampling could explain. */
  datatype Row = Row(stochastic: nat, exact: nat, hard: nat)

  function RolloutAgreement(row: Row): real
  {
    if row.stochastic == 0 then 1.0 else row.exact as real / row.stochastic as real
  }

  const ROLLOUT_FLOOR := 0.70
  const ROLLOUT_MIN_STOCH := 20

  predicate Judged(row: Row) { row.stochastic >= ROLLOUT_MIN_STOCH }

  predicate BelowFloor(row: Row) { Judged(row) && row.exact as real / row.stochastic as real < ROLLOUT_FLOOR }

  /** `rollouts_below_floor` of a group. */
  function RolloutsBelow(rows: int -> Row, group: seq<int>): nat
  {
    if group == [] then 0 else (if BelowFloor(rows(group[0])) then 1 else 0) + RolloutsBelow(rows, group[1..])
  }

  /** The agreements of the generated rollouts. */
  function AgreementsOf(seeds: seq<int>, rows: int -> Row): Agreements
  {
    Agreements(seeds, s => RolloutAgreement(rows(s)))
  }

  function BelowSet(rows: int -> Row, group: seq<int>): set<int> { set x | x in group && BelowFloor(rows(x)) }

  lemma {:induction false} BelowCounts(rows: int -> Row, group: seq<int>)
    requires Distinct(group)
    ensures RolloutsBelow(rows, group) == |BelowSet(rows, group)| <= |group|
    ensures RolloutsBelow(rows, group) == |group| <==> forall x :: x in group ==> BelowFloor(rows(x))
  {
    if group != [] {
      var x, rest := group[0], group[1..];
      hide BelowFloor;
      BelowCounts(rows, rest);
      assert x !in rest;
      assert forall y :: y in group <==> y == x || y in rest;
      assert BelowSet(rows, group) == BelowSet(rows, rest) + if BelowFloor(rows(x)) then {x} else {};
    } else {
      assert BelowSet(rows, group) == {};
    }
  }

  /** A group of the generated seeds: as many different ones as a group has. */
  ghost predicate IsGroup(pool: Pool, seeds: seq<int>, t: seq<int>)
  {
    Distinct(t) && |t| == pool.groupSize && Among(t, seeds)
  }

  /** A rollout that is not judged ranks among the first `m` and one below the floor ranks after them. */
  ghost predicate ShortHidesLow(rows: int -> Row, ranked: seq<int>, m: nat)
  {
    exists i, j :: 0 <= i < m <= j < |ranked| && !Judged(rows(ranked[i])) && BelowFloor(rows(ranked[j]))
  }

  /** No group of `seeds` has more rollouts below the floor than `chosen`. */
  ghost predicate NoneHasMore(pool: Pool, seeds: seq<int>, rows: int -> Row, chosen: seq<int>)
  {
    forall t :: IsGroup(pool, seeds, t) ==> RolloutsBelow(rows, t) <= RolloutsBelow(rows, chosen)
  }

  lemma SameBelow(rows: int -> Row, a: seq<int>, b: seq<int>)
    requires Distinct(a) && Distinct(b) && forall x :: x in a <==> x in b
    ensures RolloutsBelow(rows, a) == RolloutsBelow(rows, b)
  {
    BelowCounts(rows, a);
    BelowCounts(rows, b);
    hide RolloutsBelow, BelowFloor;
    forall x
      ensures x in BelowSet(rows, a) <==> x in BelowSet(rows, b)
    {
      assert x in a <==> x in b;
    }
    assert BelowSet(rows, a) == BelowSet(rows, b);
  }

  /** Everything below the floor is among `taken`, or all of `taken` is. */
  lemma LowIsTaken(seeds: seq<int>, rows: int -> Row, taken: seq<int>, t: seq<int>)
    requires Distinct(taken) && Distinct(t) && |t| == |taken| && Among(t, seeds)
    requires forall y :: y in seeds && y !in taken && BelowFloor(rows(y)) ==>
               forall x :: x in taken ==> BelowFloor(rows(x))
    ensures RolloutsBelow(rows, t) <= RolloutsBelow(rows, taken)
  {
    BelowCounts(rows, t);
    BelowCounts(rows, taken);
    hide RolloutsBelow, BelowFloor;
    if !(forall x :: x in taken ==> BelowFloor(rows(x))) {
      forall y | y in BelowSet(rows, t)
        ensures y in BelowSet(rows, taken)
      {
        assert y in t && y in seeds;
      }
      CardMonotone(BelowSet(rows, t), BelowSet(rows, taken));
    }
  }

  /** If a judged seed outside is below the floor, so is every judged seed taken. */
  lemma JudgedAreLower(seeds: seq<int>, rows: int -> Row, taken: seq<int>, x: int, y: int)
    requires TakesTheSmallest(Cost(LowestAgreement, AgreementsOf(seeds, rows).of), taken, seeds)
    requires x in taken && Judged(rows(x)) && y in seeds && y !in taken && BelowFloor(rows(y))
    ensures BelowFloor(rows(x))
  {
    TakenIsSmaller(Cost(LowestAgreement, AgreementsOf(seeds, rows).of), taken, seeds, x, y);
  }

  /** Exchanging a seed that is not below the floor for one that is makes a group with one more. */
  lemma ExchangeAddsOne(rows: int -> Row, taken: seq<int>, i: nat, y: int)
    requires Distinct(taken) && i < |taken| && y !in taken && !BelowFloor(rows(taken[i])) && BelowFloor(rows(y))
    ensures Distinct(taken[i := y]) && RolloutsBelow(rows, taken[i := y]) == RolloutsBelow(rows, taken) + 1
  {
    var t := taken[i := y];
    BelowCounts(rows, taken);
    assert Distinct(t);
    BelowCounts(rows, t);
    hide RolloutsBelow, BelowFloor;
    forall x
      ensures x in BelowSet(rows, t) <==> x in BelowSet(rows, taken) + {y}
    {
      Exchanged(taken, i, y, x);
    }
    assert BelowSet(rows, t) == BelowSet(rows, taken) + {y};
  }

  lemma Exchanged(s: seq<int>, i: nat, y: int, x: int)
    requires Distinct(s) && i < |s| && y !in s
    ensures x in s[i := y] <==> x == y || (x in s && x != s[i])
  {
    var t := s[i := y];
    if x in s && x != s[i] {
      var k :| 0 <= k < |s| && s[k] == x;
      assert t[k] == x;
    }
    if x in t && x != y {
      var k :| 0 <= k < |t| && t[k] == x;
      assert s[k] == x;
    }
    assert t[i] == y;
  }

  /** No group has more rollouts below the floor than the lowest-agreement group, exactly when no rollout that is too
      short to be judged is ranked into it before one that is below the floor. */
  lemma LowestIsWorstIff(pool: Pool, seeds: seq<int>, rows: int -> Row)
    requires Published(pool) && Distinct(seeds) && ChooseSeeds(pool, LowestAgreement, AgreementsOf(seeds, rows)).Ok?
    ensures NoneHasMore(pool, seeds, rows, ChooseSeeds(pool, LowestAgreement, AgreementsOf(seeds, rows)).value)
            <==> !ShortHidesLow(rows, Ranked(AgreementsOf(seeds, rows), false), pool.groupSize)
  {
    var agreement, m := AgreementsOf(seeds, rows), pool.groupSize;
    var chosen, ranked := ChooseSeeds(pool, LowestAgreement, agreement).value, Ranked(agreement, false);
    ChoiceIsAGroup(pool, LowestAgreement, agreement);
    ChosenTakesTheSmallest(pool, LowestAgreement, agreement);
    RankedPermutes(agreement, false);
    var taken := ranked[..m];
    assert Taken(m, LowestAgreement, agreement) == taken && Distinct(taken) && Distinct(chosen);
    assert TakesTheSmallest(Cost(LowestAgreement, agreement.of), taken, seeds);
    hide ChooseSeeds, Taken, Ranked, Cost, AgreementsOf, RolloutsBelow, BelowFloor, Judged;
    SameBelow(rows, chosen, taken);
    if ShortHidesLow(rows, ranked, m) {
      HiddenBeatsChosen(pool, seeds, rows, ranked);
    } else {
      forall t | IsGroup(pool, seeds, t)
        ensures RolloutsBelow(rows, t) <= RolloutsBelow(rows, taken)
      {
        NothingHidden(seeds, rows, ranked, m);
        LowIsTaken(seeds, rows, taken, t);
      }
    }
  }

  lemma HiddenBeatsChosen(pool: Pool, seeds: seq<int>, rows: int -> Row, ranked: seq<int>)
    requires Distinct(ranked) && (forall x :: x in ranked ==> x in seeds) && pool.groupSize <= |ranked|
    requires ShortHidesLow(rows, ranked, pool.groupSize)
    ensures exists t ::
              IsGroup(pool, seeds, t) && RolloutsBelow(rows, t) > RolloutsBelow(rows, ranked[..pool.groupSize])
  {
    var m := pool.groupSize;
    var i, j :| 0 <= i < m <= j < |ranked| && !Judged(rows(ranked[i])) && BelowFloor(rows(ranked[j]));
    var taken, y := ranked[..m], ranked[j];
    assert !BelowFloor(rows(taken[i])) && Distinct(taken) && y in ranked;
    hide BelowFloor, Judged;
    assert y !in taken;
    ExchangeAddsOne(rows, taken, i, y);
    forall x | x in taken[i := y]
      ensures x in seeds
    {
      Exchanged(taken, i, y, x);
      assert x in taken ==> x in ranked;
    }
    assert IsGroup(pool, seeds, taken[i := y]);
  }

  lemma NothingHidden(seeds: seq<int>, rows: int -> Row, ranked: seq<int>, m: nat)
    requires m <= |ranked| && (forall x :: x in seeds ==> x in ranked) && !ShortHidesLow(rows, ranked, m)
    requires TakesTheSmallest(Cost(LowestAgreement, AgreementsOf(seeds, rows).of), ranked[..m], seeds)
    ensures forall y :: y in seeds && y !in ranked[..m] && BelowFloor(rows(y)) ==>
              forall x :: x in ranked[..m] ==> BelowFloor(rows(x))
  {
    forall y, x | y in seeds && y !in ranked[..m] && BelowFloor(rows(y)) && x in ranked[..m]
      ensures BelowFloor(rows(x))
    {
      var j :| 0 <= j < |ranked| && ranked[j] == y;
      var i :| 0 <= i < m && ranked[i] == x;
      assert forall k :: 0 <= k < m ==> ranked[k] in ranked[..m];
      assert j >= m;
      JudgedAreLower(seeds, rows, ranked[..m], x, y);
    }
  }

  /** So it is whenever every rollout is judged: if the lowest-agreement group has none below the floor, no group
      has. */
  lemma LowestIsWorstForRollouts(pool: Pool, seeds: seq<int>, rows: int -> Row)
    requires Published(pool) && Distinct(seeds) && ChooseSeeds(pool, LowestAgreement, AgreementsOf(seeds, rows)).Ok?
    requires forall s :: s in seeds ==> Judged(rows(s))
    ensures NoneHasMore(pool, seeds, rows, ChooseSeeds(pool, LowestAgreement, AgreementsOf(seeds, rows)).value)
  {
    hide ChooseSeeds, Ranked, NoneHasMore, BelowFloor, Judged;
    var agreement := AgreementsOf(seeds, rows);
    var ranked := Ranked(agreement, false);
    assert agreement.seeds == seeds;
    RankedPermutes(agreement, false);
    LowestIsWorstIff(pool, seeds, rows);
    hide AgreementsOf;
    AllJudged(seeds, rows, ranked);
  }

  lemma AllJudged(seeds: seq<int>, rows: int -> Row, ranked: seq<int>)
    requires (forall x :: x in ranked <==> x in seeds) && forall s :: s in seeds ==> Judged(rows(s))
    ensures forall i :: 0 <= i < |ranked| ==> Judged(rows(ranked[i]))
  {
    hide Judged;
    forall i | 0 <= i < |ranked|
      ensures Judged(rows(ranked[i]))
    {
      var x := ranked[i];
      assert x in ranked;
    }
  }

  /** Two rollouts too short to be judged, one below the floor, and one that matches throughout. */
  function WithShortRollouts(s: int): Row
  {
    if s < 2 then Row(1, 0, 0) else if s == 2 then Row(20, 10, 0) else Row(20, 20, 0)
  }

  /** A rollout too short to be judged can push a judged one that is below the floor out of the group. */
  lemma ShortRolloutsHideOthers()
    ensures ChooseSeeds(Pool(2, 4), LowestAgreement, AgreementsOf([0, 1, 2, 3], WithShortRollouts)) == Ok([0, 1])
    ensures RolloutsBelow(WithShortRollouts, [0, 1]) == 0 && RolloutsBelow(WithShortRollouts, [2, 3]) == 1
  {
    var rows := WithShortRollouts;
    var agreement := AgreementsOf([0, 1, 2, 3], rows);
    RatioOf([0, 1, 2, 3], rows, 0, 0.0);
    RatioOf([0, 1, 2, 3], rows, 1, 0.0);
    RatioOf([0, 1, 2, 3], rows, 2, 0.5);
    RatioOf([0, 1, 2, 3], rows, 3, 1.0);
    hide AgreementsOf, ChooseSeeds;
    FirstTwoLowest(agreement);
    assert RolloutsBelow(rows, [1]) == 0 && [0, 1][1..] == [1] && RolloutsBelow(rows, [3]) == 0 && [2, 3][1..] == [3];
  }

  lemma RatioOf(seeds: seq<int>, rows: int -> Row, s: int, q: real)
    requires rows(s).stochastic > 0 && rows(s).exact as real == q * rows(s).stochastic as real
    ensures AgreementsOf(seeds, rows).seeds == seeds && AgreementsOf(seeds, rows).of(s) == q
    ensures rows(s).exact as real / rows(s).stochastic as real == q
  {
  }

  lemma FirstTwoLowest(agreement: Agreements)
    requires agreement.seeds == [0, 1, 2, 3]
    requires agreement.of(0) <= agreement.of(1) < agreement.of(2) < agreement.of(3)
    ensures ChooseSeeds(Pool(2, 4), LowestAgreement, agreement) == Ok([0, 1])
  {
    hide Sort;
    var seeds, le := [0, 1, 2, 3], RankLe(agreement.of, false);
    assert Sorted(seeds, SeedLe) && Sorted(seeds, le) && Sorted([0, 1], SeedLe);
    hide Sorted, RankLe;
    SortFixesSorted(seeds, SeedLe);
    SortFixesSorted(seeds, le);
    SortFixesSorted([0, 1], SeedLe);
    assert seeds[..2] == [0, 1];
  }

  // ---------------------------------------------------------------- the floor for whole groups

  function Total(count: int -> int, group: seq<int>): int
  {
    if group == [] then 0 else count(group[0]) + Total(count, group[1..])
  }

  const GROUP_FLOOR := 0.80
  const GROUP_MIN_STOCH := 30

  /** The verdict on a group: enough positions, and too few of them match. */
  predicate GroupRejected(rows: int -> Row, group: seq<int>)
  {
    RatioRejected(Total(Positions(rows), group), Total(Matches(rows), group))
  }

  predicate RatioRejected(n: int, m: int) { n >= GROUP_MIN_STOCH && m as real / n as real < GROUP_FLOOR }

  function Positions(rows: int -> Row): int -> int { s => rows(s).stochastic }

  function Matches(rows: int -> Row): int -> int { s => rows(s).exact }

  lemma {:induction false} TotalWithout(count: int -> int, group: seq<int>, j: nat)
    requires j < |group|
    ensures Total(count, group) == count(group[j]) + Total(count, group[..j] + group[j + 1..])
  {
    if j > 0 {
      TotalWithout(count, group[1..], j - 1);
      var rest := group[..j] + group[j + 1..];
      assert rest[1..] == group[1..][..j - 1] + group[1..][j..];
    } else {
      assert group[..0] + group[1..] == group[1..];
    }
  }

  lemma Without(group: seq<int>, j: nat)
    requires Distinct(group) && j < |group|
    ensures var rest := group[..j] + group[j + 1..];
            Distinct(rest) && |rest| == |group| - 1 && forall x :: x in rest <==> x in group && x != group[j]
  {
    var rest := group[..j] + group[j + 1..];
    assert forall i :: 0 <= i < |rest| ==> rest[i] == group[if i < j then i else i + 1];
    forall x | x in group && x != group[j]
      ensures x in rest
    {
      var i :| 0 <= i < |group| && group[i] == x;
      assert rest[if i < j then i else i - 1] == x;
    }
  }

  ghost predicate NoneSmallerOutside(count: int -> int, c: seq<int>, t: seq<int>)
  {
    forall x, y :: x in c && y in t && y !in c ==> count(x) <= count(y)
  }

  /** A position in `t` to compare with the last of `c`: the same seed, or one outside `c`. */
  lemma Counterpart(count: int -> int, c: seq<int>, t: seq<int>) returns (j: nat)
    requires Distinct(c) && Distinct(t) && |c| == |t| > 0 && NoneSmallerOutside(count, c, t)
    ensures j < |t| && (t[j] == c[|c| - 1] || (t[j] !in c && c[|c| - 1] !in t)) && count(c[|c| - 1]) <= count(t[j])
  {
    var x := c[|c| - 1];
    assert x in c;
    if x in t {
      j :| 0 <= j < |t| && t[j] == x;
    } else {
      SomeOutside(c, t);
      var y :| y in t && y !in c;
      j :| 0 <= j < |t| && t[j] == y;
    }
  }

  lemma SomeOutside(c: seq<int>, t: seq<int>)
    requires Distinct(t) && |c| == |t| > 0 && c[|c| - 1] !in t
    ensures exists y :: y in t && y !in c
  {
    var x, rest := c[|c| - 1], c[..|c| - 1];
    assert c == rest + [x];
    if forall y :: y in t ==> y in c {
      DistinctCount(t);
      DistinctCount(rest);
      CardMonotone(Elements(t), Elements(rest));
    }
  }

  lemma {:induction false} SmallestTotal(count: int -> int, c: seq<int>, t: seq<int>)
    requires Distinct(c) && Distinct(t) && |c| == |t| && NoneSmallerOutside(count, c, t)
    ensures Total(count, c) <= Total(count, t)
  {
    if c != [] {
      var i := |c| - 1;
      var j := Counterpart(count, c, t);
      TotalWithout(count, c, i);
      TotalWithout(count, t, j);
      Without(c, i);
      Without(t, j);
      hide Total, Distinct;
      SmallestTotal(count, c[..i] + c[i + 1..], t[..j] + t[j + 1..]);
    }
  }

  lemma {:induction false} TotalOfEqual(count: int -> int, group: seq<int>, n: nat)
    requires forall s :: s in group ==> count(s) == n
    ensures Total(count, group) == |group| * n
  {
    if group != [] {
      TotalOfEqual(count, group[1..], n);
      var s := group[0];
      assert s in group && count(s) == n;
      assert (1 + |group[1..]|) * n == n + |group[1..]| * n;
    }
  }

  lemma RatioOrder(a: int, b: int, n: int)
    requires n > 0
    ensures a as real / n as real <= b as real / n as real <==> a <= b
  {
  }

  lemma EqualCounts(seeds: seq<int>, rows: int -> Row, n: nat, c: seq<int>, t: seq<int>)
    requires n > 0 && (forall s :: s in seeds ==> rows(s).stochastic == n) && Among(c, seeds) && Among(t, seeds)
    requires TakesTheSmallest(Cost(LowestAgreement, AgreementsOf(seeds, rows).of), c, seeds)
    ensures NoneSmallerOutside(Matches(rows), c, t)
  {
    var g := Cost(LowestAgreement, AgreementsOf(seeds, rows).of);
    forall x, y | x in c && y in t && y !in c
      ensures rows(x).exact <= rows(y).exact
    {
      TakenIsSmaller(g, c, seeds, x, y);
      RatioOrder(rows(x).exact, rows(y).exact, n);
    }
  }

  /** When all rollouts have equally many positions, the lowest-agreement group is the worst group: if the verdict lets
      it pass, it lets every group pass. */
  lemma LowestIsWorstForGroups(pool: Pool, seeds: seq<int>, rows: int -> Row, n: nat, t: seq<int>)
    requires Published(pool) && Distinct(seeds) && ChooseSeeds(pool, LowestAgreement, AgreementsOf(seeds, rows)).Ok?
    requires forall s :: s in seeds ==> rows(s).stochastic == n
    requires Distinct(t) && |t| == pool.groupSize && Among(t, seeds) && GroupRejected(rows, t)
    ensures GroupRejected(rows, ChooseSeeds(pool, LowestAgreement, AgreementsOf(seeds, rows)).value)
  {
    hide ChooseSeeds, Taken, Cost, AgreementsOf, Total, GroupRejected, TakesTheSmallest, Positions, Matches;
    var agreement := AgreementsOf(seeds, rows);
    var chosen := ChooseSeeds(pool, LowestAgreement, agreement).value;
    AgreementSeeds(seeds, rows);
    ChoiceIsAGroup(pool, LowestAgreement, agreement);
    ChosenTakesTheSmallest(pool, LowestAgreement, agreement);
    AscendingDistinct(chosen);
    hide Distinct, Ascending;
    LowerIsRejected(seeds, rows, n, chosen, t);
  }

  lemma AgreementSeeds(seeds: seq<int>, rows: int -> Row)
    ensures AgreementsOf(seeds, rows).seeds == seeds
  {
  }

  lemma AscendingDistinct(s: seq<int>)
    requires Ascending(s)
    ensures Distinct(s)
  {
  }

  lemma LowerIsRejected(seeds: seq<int>, rows: int -> Row, n: nat, c: seq<int>, t: seq<int>)
    requires (forall s :: s in seeds ==> rows(s).stochastic == n) && Among(c, seeds) && Among(t, seeds)
    requires Distinct(c) && Distinct(t) && |c| == |t| && GroupRejected(rows, t)
    requires TakesTheSmallest(Cost(LowestAgreement, AgreementsOf(seeds, rows).of), c, seeds)
    ensures GroupRejected(rows, c)
  {
    TotalOfEqual(Positions(rows), t, n);
    TotalOfEqual(Positions(rows), c, n);
    hide Cost, AgreementsOf, Total, TakesTheSmallest, Distinct, Positions, Matches;
    EqualCounts(seeds, rows, n, c, t);
    SmallestTotal(Matches(rows), c, t);
    FewerMatches(Total(Positions(rows), t), Total(Matches(rows), c), Total(Matches(rows), t));
  }

  lemma FewerMatches(n: int, m: int, m': int)
    requires m <= m' && RatioRejected(n, m')
    ensures RatioRejected(n, m)
  {
    RatioOrder(m, m', n);
  }

  /** One short rollout that matches badly, one long one that matches well, and two short ones that match better
      still. */
  function WithALongRollout(s: int): Row
  {
    if s == 0 then Row(20, 10, 0) else if s == 1 then Row(1000, 890, 0) else if s == 2 then Row(10, 9, 0)
        else Row(10, 10, 0)
  }

  /** With rollouts of different lengths it need not be: a long rollout can dilute the lowest-agreement group. */
  lemma LongRolloutsDilute()
    ensures ChooseSeeds(Pool(2, 4), LowestAgreement, AgreementsOf([0, 1, 2, 3], WithALongRollout)) == Ok([0, 1])
    ensures !GroupRejected(WithALongRollout, [0, 1]) && GroupRejected(WithALongRollout, [0, 2])
  {
    hide ChooseSeeds, AgreementsOf, GroupRejected, RolloutAgreement;
    LongRolloutChoice();
    GroupOfTwo(WithALongRollout, 0, 1, 1020, 900);
    GroupOfTwo(WithALongRollout, 0, 2, 30, 19);
  }

  lemma LongRolloutChoice()
    ensures ChooseSeeds(Pool(2, 4), LowestAgreement, AgreementsOf([0, 1, 2, 3], WithALongRollout)) == Ok([0, 1])
  {
    hide ChooseSeeds, AgreementsOf, RolloutAgreement;
    var rows := WithALongRollout;
    RatioOf([0, 1, 2, 3], rows, 0, 0.5);
    RatioOf([0, 1, 2, 3], rows, 1, 0.89);
    RatioOf([0, 1, 2, 3], rows, 2, 0.9);
    RatioOf([0, 1, 2, 3], rows, 3, 1.0);
    FirstTwoLowest(AgreementsOf([0, 1, 2, 3], rows));
  }

  lemma GroupOfTwo(rows: int -> Row, a: int, b: int, n: nat, m: nat)
    requires n == rows(a).stochastic + rows(b).stochastic && m == rows(a).exact + rows(b).exact && n >= GROUP_MIN_STOCH
    ensures GroupRejected(rows, [a, b]) <==> m as real / n as real < GROUP_FLOOR
  {
    TwoTotals(Positions(rows), a, b);
    TwoTotals(Matches(rows), a, b);
    hide Total;
  }

  lemma TwoTotals(count: int -> int, a: int, b: int)
    ensures Total(count, [a, b]) == count(a) + count(b)
  {
    assert [a, b][1..] == [b] && [b][1..] == [];
    assert Total(count, [b]) == count(b);
  }
}

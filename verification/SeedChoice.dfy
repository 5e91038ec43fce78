/** Which seeds of a pool are generated and submitted, in `scripts/benchmark_inference_contract.py`. */
module SeedChoice {
  import opened Wrappers
  import opened Orders

  // ---------------------------------------------------------------- pools and calls

  datatype Pool = Pool(groupSize: nat, poolSeeds: nat)

  /** A published pool has twice as many seeds as a group. */
  predicate Published(pool: Pool) { pool.groupSize >= 2 && pool.poolSeeds == 2 * pool.groupSize }

  /** `range(lo, hi)`. */
  function Range(lo: nat, hi: nat): seq<int>
    decreases hi - lo
  {
    if lo < hi then [lo] + Range(lo + 1, hi) else []
  }

  datatype Subset = FirstHalf | Everything | UnknownSubset

  function SeedsToGenerate(pool: Pool, subset: Subset): Result<seq<seq<int>>>
  {
    match subset
    case FirstHalf => Ok([Range(0, pool.groupSize)])
    case Everything => Ok([Range(0, pool.groupSize), Range(pool.groupSize, pool.poolSeeds)])
    case UnknownSubset => Err("pool subset")
  }

  lemma {:induction false} RangeSplits(lo: nat, mid: nat, hi: nat)
    requires lo <= mid <= hi
    ensures Range(lo, mid) + Range(mid, hi) == Range(lo, hi)
    decreases mid - lo
  {
    if lo < mid {
      RangeSplits(lo + 1, mid, hi);
    }
  }

  lemma {:induction false} RangeAt(lo: nat, hi: nat, i: nat)
    requires lo <= hi && i < hi - lo
    ensures |Range(lo, hi)| == hi - lo && Range(lo, hi)[i] == lo + i
    decreases hi - lo
  {
    if lo + 1 < hi {
      RangeAt(lo + 1, hi, if i == 0 then 0 else i - 1);
    }
  }

  /** The calls of the whole pool are two groups that list every seed of the pool once. */
  lemma CallsPartitionThePool(pool: Pool)
    requires Published(pool)
    ensures var calls := SeedsToGenerate(pool, Everything).value;
            && |calls| == 2 && |calls[0]| == |calls[1]| == pool.groupSize
            && calls[0] + calls[1] == Range(0, pool.poolSeeds)
            && (forall s: nat :: s < pool.poolSeeds ==> (calls[0] + calls[1])[s] == s)
  {
    RangeSplits(0, pool.groupSize, pool.poolSeeds);
    RangeAt(0, pool.groupSize, 0);
    RangeAt(pool.groupSize, pool.poolSeeds, 0);
    RangeAt(0, pool.poolSeeds, 0);
    forall s: nat | s < pool.poolSeeds
      ensures Range(0, pool.poolSeeds)[s] == s
    {
      RangeAt(0, pool.poolSeeds, s);
    }
  }

  // ---------------------------------------------------------------- the choice

  datatype Pick = First | Last | LowestAgreement | HighestAgreement | UnknownPick

  /** The dictionary `agreement`: its keys as they were entered, and its values. */
  datatype Agreements = Agreements(seeds: seq<int>, of: int -> real)

  ghost predicate Distinct<T>(s: seq<T>) { forall i, j :: 0 <= i < j < |s| ==> s[i] != s[j] }

  ghost predicate Ascending(s: seq<int>) { forall i, j :: 0 <= i < j < |s| ==> s[i] < s[j] }

  function Elements<T>(s: seq<T>): set<T> { set x | x in s }

  predicate SeedLe(a: int, b: int) { a <= b }

  predicate Up(of: int -> real, a: int, b: int) { of(a) < of(b) || (of(a) == of(b) && a <= b) }

  /** The order of the key `(agreement[s], s)`, turned round for the highest agreement. */
  function RankLe(of: int -> real, reverse: bool): (int, int) -> bool
  {
    (a: int, b: int) => if reverse then Up(of, b, a) else Up(of, a, b)
  }

  function Ranked(agreement: Agreements, reverse: bool): seq<int>
  {
    Sort(Sort(agreement.seeds, SeedLe), RankLe(agreement.of, reverse))
  }

  /** The seeds taken, before they are put in ascending order. */
  function Taken(m: nat, pick: Pick, agreement: Agreements): seq<int>
    requires m <= |agreement.seeds|
  {
    SortPermutes(agreement.seeds, SeedLe);
    var seeds := Sort(agreement.seeds, SeedLe);
    SortPermutes(seeds, RankLe(agreement.of, pick == HighestAgreement));
    if pick == First then seeds[..m]
    else if pick == Last then (if m == 0 then seeds else seeds[|seeds| - m..])
    else Ranked(agreement, pick == HighestAgreement)[..m]
  }

  function ChooseSeeds(pool: Pool, pick: Pick, agreement: Agreements): Result<seq<int>>
  {
    if pick == UnknownPick then Err("pool pick")
    else if |agreement.seeds| < pool.groupSize then Err("fewer generated seeds than a group")
    else Ok(Sort(Taken(pool.groupSize, pick, agreement), SeedLe))
  }

  lemma RankedPermutes(agreement: Agreements, reverse: bool)
    requires Distinct(agreement.seeds)
    ensures var ranked := Ranked(agreement, reverse);
            |ranked| == |agreement.seeds| && Distinct(ranked) && forall x :: x in ranked <==> x in agreement.seeds
  {
    var seeds := Sort(agreement.seeds, SeedLe);
    SortPermutes(agreement.seeds, SeedLe);
    SortPermutes(seeds, RankLe(agreement.of, reverse));
    hide Sort;
    SameDistinct(agreement.seeds, Ranked(agreement, reverse));
  }

  lemma TakenFacts(m: nat, pick: Pick, agreement: Agreements)
    requires 0 < m <= |agreement.seeds| && Distinct(agreement.seeds)
    ensures var taken := Taken(m, pick, agreement);
            |taken| == m && Distinct(taken) && forall x :: x in taken ==> x in agreement.seeds
  {
    var seeds, ranked := Sort(agreement.seeds, SeedLe), Ranked(agreement, pick == HighestAgreement);
    SortPermutes(agreement.seeds, SeedLe);
    RankedPermutes(agreement, pick == HighestAgreement);
    hide Sort, Ranked, Distinct;
    SameDistinct(agreement.seeds, seeds);
    if pick == First {
      SliceFacts(seeds, m);
    } else if pick == Last {
      SliceFacts(seeds, |seeds| - m);
    } else {
      SliceFacts(ranked, m);
    }
  }

  lemma SliceFacts(s: seq<int>, k: nat)
    requires k <= |s| && Distinct(s)
    ensures Distinct(s[..k]) && forall x :: x in s[..k] ==> x in s
    ensures Distinct(s[k..]) && forall x :: x in s[k..] ==> x in s
  {
  }

  /** A choice is a group: as many seeds as a group has, each generated, in ascending order; it fails only for an
      unknown pick or too few seeds. */
  lemma ChoiceIsAGroup(pool: Pool, pick: Pick, agreement: Agreements)
    requires Published(pool) && Distinct(agreement.seeds)
    ensures ChooseSeeds(pool, pick, agreement).Ok? <==> pick != UnknownPick && |agreement.seeds| >= pool.groupSize
    ensures ChooseSeeds(pool, pick, agreement).Ok? ==>
              var chosen := ChooseSeeds(pool, pick, agreement).value;
              && |chosen| == pool.groupSize && Ascending(chosen)
              && (forall x :: x in chosen ==> x in agreement.seeds)
              && (forall x :: x in chosen <==> x in Taken(pool.groupSize, pick, agreement))
  {
    if ChooseSeeds(pool, pick, agreement).Ok? {
      TakenFacts(pool.groupSize, pick, agreement);
      hide Taken;
      SortAscends(Taken(pool.groupSize, pick, agreement));
    }
  }

  lemma SortAscends(s: seq<int>)
    requires Distinct(s)
    ensures var sorted := Sort(s, SeedLe);
            |sorted| == |s| && Ascending(sorted) && forall x :: x in sorted <==> x in s
  {
    SortPermutes(s, SeedLe);
    SortSorts(s, SeedLe);
    hide Sort;
    SameDistinct(s, Sort(s, SeedLe));
  }

  lemma SameDistinct<T>(a: seq<T>, b: seq<T>)
    requires multiset(a) == multiset(b) && Distinct(a)
    ensures Distinct(b)
  {
    forall x | x in a
      ensures multiset(a)[x] <= 1
    {
      DistinctOnce(a, x);
    }
    forall i, j | 0 <= i < j < |b|
      ensures b[i] != b[j]
    {
      if b[i] == b[j] {
        TwiceInMultiset(b, i, j);
        assert b[i] in multiset(a);
        DistinctOnce(a, b[i]);
      }
    }
  }

  lemma {:induction false} DistinctOnce<T>(s: seq<T>, x: T)
    requires Distinct(s)
    ensures multiset(s)[x] <= 1
  {
    if s != [] {
      DistinctOnce(s[1..], x);
      assert s == [s[0]] + s[1..];
      assert x == s[0] ==> x !in s[1..];
    }
  }

  lemma TwiceInMultiset<T>(s: seq<T>, i: nat, j: nat)
    requires i < j < |s| && s[i] == s[j]
    ensures multiset(s)[s[i]] >= 2
  {
    assert s == s[..i] + [s[i]] + s[i + 1..j] + [s[j]] + s[j + 1..];
  }
}

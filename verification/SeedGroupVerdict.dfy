/** Exactly when the verdict on the lowest-agreement group speaks for every group. */
module SeedGroupVerdict {
  import opened SeedChoice
  import opened SeedWorstCase

  /** How far, in fifths of a position, the matches of a rollout exceed the floor of four fifths. */
  function Margins(rows: int -> Row): int -> int { s => 5 * rows(s).exact - 4 * rows(s).stochastic }

  lemma {:induction false} TotalMargin(rows: int -> Row, group: seq<int>)
    ensures Total(Margins(rows), group) == 5 * Total(Matches(rows), group) - 4 * Total(Positions(rows), group)
  {
    if group != [] {
      TotalMargin(rows, group[1..]);
    }
  }

  lemma RatioIsMargin(n: int, m: int)
    requires n > 0
    ensures m as real / n as real < GROUP_FLOOR <==> 5 * m - 4 * n < 0
  {
    assert (m as real / n as real) * n as real == m as real;
  }

  /** A group is rejected when it has enough positions and its margins sum to less than nothing. */
  lemma RejectedByMargin(rows: int -> Row, group: seq<int>)
    ensures GroupRejected(rows, group) <==>
            Total(Positions(rows), group) >= GROUP_MIN_STOCH && Total(Margins(rows), group) < 0
  {
    TotalMargin(rows, group);
    hide Total, Positions, Matches, Margins;
    if Total(Positions(rows), group) >= GROUP_MIN_STOCH {
      RatioIsMargin(Total(Positions(rows), group), Total(Matches(rows), group));
    }
  }

  /** The group with the smallest counts: the first seeds in the order of `count`. */
  function LeastBy(pool: Pool, seeds: seq<int>, count: int -> int): seq<int>
    requires pool.groupSize <= |seeds|
  {
    ChooseSeeds(pool, LowestAgreement, Agreements(seeds, s => count(s) as real)).value
  }

  /** No group has a smaller total. */
  lemma LeastHasLeast(pool: Pool, seeds: seq<int>, count: int -> int, t: seq<int>)
    requires Published(pool) && Distinct(seeds) && pool.groupSize <= |seeds| && IsGroup(pool, seeds, t)
    ensures IsGroup(pool, seeds, LeastBy(pool, seeds, count))
    ensures Total(count, LeastBy(pool, seeds, count)) <= Total(count, t)
  {
    var values := Agreements(seeds, s => count(s) as real);
    var least := LeastBy(pool, seeds, count);
    ChoiceIsAGroup(pool, LowestAgreement, values);
    ChosenTakesTheSmallest(pool, LowestAgreement, values);
    hide ChooseSeeds, Taken, Total;
    var g := Cost(LowestAgreement, values.of);
    forall x, y | x in least && y in t && y !in least
      ensures count(x) <= count(y)
    {
      TakenIsSmaller(g, least, seeds, x, y);
    }
    SmallestTotal(count, least, t);
  }

  /** Where no group is too short to be judged, the group with the least margins is rejected if any is. */
  lemma WorstSpeaks(pool: Pool, seeds: seq<int>, rows: int -> Row, t: seq<int>)
    requires Published(pool) && Distinct(seeds) && pool.groupSize <= |seeds| && IsGroup(pool, seeds, t)
    requires Total(Positions(rows), LeastBy(pool, seeds, Positions(rows))) >= GROUP_MIN_STOCH
    ensures GroupRejected(rows, t) ==> GroupRejected(rows, LeastBy(pool, seeds, Margins(rows)))
  {
    var worst := LeastBy(pool, seeds, Margins(rows));
    hide LeastBy, Total, GroupRejected, IsGroup;
    LeastHasLeast(pool, seeds, Margins(rows), t);
    LeastHasLeast(pool, seeds, Positions(rows), worst);
    RejectedByMargin(rows, worst);
    RejectedByMargin(rows, t);
  }

  /** Every group passes whenever `chosen` does. */
  ghost predicate SpeaksForAll(pool: Pool, seeds: seq<int>, rows: int -> Row, chosen: seq<int>)
  {
    forall t :: IsGroup(pool, seeds, t) && GroupRejected(rows, t) ==> GroupRejected(rows, chosen)
  }

  /** Where even the shortest rollouts make a group that is long enough to be judged, the verdict on the
      lowest-agreement group speaks for every group exactly when it is a rejection or the group with the least margins
      passes too. */
  lemma LowestSpeaksIff(pool: Pool, seeds: seq<int>, rows: int -> Row)
    requires Published(pool) && Distinct(seeds) && pool.groupSize <= |seeds|
    requires Total(Positions(rows), LeastBy(pool, seeds, Positions(rows))) >= GROUP_MIN_STOCH
    ensures var chosen := ChooseSeeds(pool, LowestAgreement, AgreementsOf(seeds, rows)).value;
            SpeaksForAll(pool, seeds, rows, chosen) <==>
            GroupRejected(rows, chosen) || !GroupRejected(rows, LeastBy(pool, seeds, Margins(rows)))
  {
    var chosen := ChooseSeeds(pool, LowestAgreement, AgreementsOf(seeds, rows)).value;
    var worst := LeastBy(pool, seeds, Margins(rows));
    ChoiceIsAGroup(pool, LowestAgreement, AgreementsOf(seeds, rows));
    assert IsGroup(pool, seeds, chosen);
    hide ChooseSeeds, LeastBy, Total, GroupRejected, IsGroup, AgreementsOf;
    LeastHasLeast(pool, seeds, Margins(rows), chosen);
    forall t | IsGroup(pool, seeds, t) && GroupRejected(rows, t)
      ensures GroupRejected(rows, worst)
    {
      WorstSpeaks(pool, seeds, rows, t);
    }
  }

  // ---------------------------------------------------------------- acceptance

  function HardMismatches(rows: int -> Row): int -> int { s => rows(s).hard }

  /** `accepted`: no floor is missed, by the group or by a rollout, and no mismatch is hard. */
  predicate Accepted(rows: int -> Row, group: seq<int>)
  {
    !GroupRejected(rows, group) && RolloutsBelow(rows, group) == 0 && Total(HardMismatches(rows), group) == 0
  }

  /** The rollout alone keeps no group from being accepted. */
  predicate Clean(row: Row) { row.hard == 0 && !BelowFloor(row) }

  lemma {:induction false} CleanGroup(rows: int -> Row, group: seq<int>)
    ensures Total(HardMismatches(rows), group) >= 0
    ensures RolloutsBelow(rows, group) == 0 && Total(HardMismatches(rows), group) == 0 <==>
            forall s :: s in group ==> Clean(rows(s))
  {
    hide BelowFloor;
    if group != [] {
      CleanGroup(rows, group[1..]);
      var first, rest := group[0], group[1..];
      assert group == [first] + rest && HardMismatches(rows)(first) == rows(first).hard;
      assert forall s :: s in group <==> s == first || s in rest;
    }
  }

  /** Every seed is in some group. */
  lemma GroupWith(pool: Pool, seeds: seq<int>, group: seq<int>, s: int) returns (t: seq<int>)
    requires IsGroup(pool, seeds, group) && pool.groupSize > 0 && s in seeds
    ensures IsGroup(pool, seeds, t) && s in t
  {
    if s in group {
      t := group;
    } else {
      t := group[0 := s];
      assert t[0] == s;
      assert forall i :: 0 < i < |t| ==> t[i] == group[i] && t[i] in group;
    }
  }

  /** All groups are accepted exactly when every rollout is clean and the group with the least margins passes. */
  lemma AllAcceptedIff(pool: Pool, seeds: seq<int>, rows: int -> Row)
    requires Published(pool) && Distinct(seeds) && pool.groupSize <= |seeds|
    requires Total(Positions(rows), LeastBy(pool, seeds, Positions(rows))) >= GROUP_MIN_STOCH
    ensures (forall t :: IsGroup(pool, seeds, t) ==> Accepted(rows, t)) <==>
            && (forall s :: s in seeds ==> Clean(rows(s)))
            && !GroupRejected(rows, LeastBy(pool, seeds, Margins(rows)))
  {
    assert pool.groupSize > 0;
    var worst := LeastBy(pool, seeds, Margins(rows));
    hide LeastBy, Total, GroupRejected, IsGroup, Clean, RolloutsBelow, Positions, Margins, Published;
    SomeGroup(pool, seeds);
    LeastHasLeast(pool, seeds, Margins(rows), seeds[..pool.groupSize]);
    if forall t :: IsGroup(pool, seeds, t) ==> Accepted(rows, t) {
      forall s | s in seeds
        ensures Clean(rows(s))
      {
        var t := GroupWith(pool, seeds, worst, s);
        CleanGroup(rows, t);
      }
    }
    if (forall s :: s in seeds ==> Clean(rows(s))) && !GroupRejected(rows, worst) {
      forall t | IsGroup(pool, seeds, t)
        ensures Accepted(rows, t)
      {
        GroupMembers(pool, seeds, t);
        CleanGroup(rows, t);
        WorstSpeaks(pool, seeds, rows, t);
      }
    }
  }

  lemma SomeGroup(pool: Pool, seeds: seq<int>)
    requires Distinct(seeds) && pool.groupSize <= |seeds|
    ensures IsGroup(pool, seeds, seeds[..pool.groupSize])
  {
  }

  lemma GroupMembers(pool: Pool, seeds: seq<int>, t: seq<int>)
    requires IsGroup(pool, seeds, t)
    ensures forall s :: s in t ==> s in seeds
  {
  }

  /** So acceptance of the lowest-agreement group speaks for every group exactly when it is not accepted, or every
      rollout outside it is clean and the group with the least margins passes. One hard mismatch outside is enough to
      break it. */
  lemma AcceptanceSpeaksIff(pool: Pool, seeds: seq<int>, rows: int -> Row)
    requires Published(pool) && Distinct(seeds) && pool.groupSize <= |seeds|
    requires Total(Positions(rows), LeastBy(pool, seeds, Positions(rows))) >= GROUP_MIN_STOCH
    ensures var chosen := ChooseSeeds(pool, LowestAgreement, AgreementsOf(seeds, rows)).value;
            (Accepted(rows, chosen) ==> forall t :: IsGroup(pool, seeds, t) ==> Accepted(rows, t)) <==>
            || !Accepted(rows, chosen)
            || (&& (forall s :: s in seeds && s !in chosen ==> Clean(rows(s)))
                && !GroupRejected(rows, LeastBy(pool, seeds, Margins(rows))))
  {
    var chosen := ChooseSeeds(pool, LowestAgreement, AgreementsOf(seeds, rows)).value;
    hide ChooseSeeds, LeastBy, Total, GroupRejected, IsGroup, AgreementsOf, Clean, Published, RolloutsBelow;
    CleanGroup(rows, chosen);
    AllAcceptedIff(pool, seeds, rows);
  }
}

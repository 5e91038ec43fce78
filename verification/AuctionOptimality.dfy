/** How good the greedy selection is: maximal always, optimal without an operator cap, and within a factor
    of two of every feasible set with one. */
module AuctionOptimality {
  import opened Wrappers
  import opened DifficultyAuction
  import opened Sets
  import Orders

  ghost function Total(value: Candidate -> real, s: set<Candidate>): real
  {
    if s == {} then 0.0 else
    var c :| c in s;
    value(c) + Total(value, s - {c})
  }

  lemma {:induction false} TotalAdd(value: Candidate -> real, s: set<Candidate>, c: Candidate)
    requires c !in s
    ensures Total(value, s + {c}) == Total(value, s) + value(c)
  {
    var t := s + {c};
    var d :| d in t && Total(value, t) == value(d) + Total(value, t - {d});
    if d == c {
      assert t - {d} == s;
    } else {
      TotalAdd(value, s - {d}, c);
      assert t - {d} == s - {d} + {c};
      TotalAdd(value, s - {d}, d);
      assert s - {d} + {d} == s;
    }
  }

  // ---------------------------------------------------------------- what the greedy pass keeps

  lemma {:induction false} GreedyFeasible(rules: Rules, ranked: seq<Candidate>)
    ensures Feasible(rules, Elements(Greedy(rules, ranked)))
    ensures |Greedy(rules, ranked)| == |Elements(Greedy(rules, ranked))|
    ensures Elements(Greedy(rules, ranked)) <= Elements(ranked)
  {
    if ranked == [] {
      assert Elements(ranked) == {};
    } else {
      var rest, c := ranked[..|ranked| - 1], ranked[|ranked| - 1];
      GreedyFeasible(rules, rest);
      var before := Greedy(rules, rest);
      assert ranked == rest + [c];
      hide Feasible, AtCap;
      if Fits(rules, Elements(before), c) {
        AddOne(rules, Elements(before), c);
        assert Elements(before + [c]) == Elements(before) + {c};
      }
    }
  }

  /** Why a set cannot take `c`. Adding members never removes the reason. */
  ghost predicate Blocked(rules: Rules, s: set<Candidate>, c: Candidate)
  {
    |s| >= rules.batchSize || c.promptIdx in Prompts(s) || AtCap(rules, s, c)
  }

  lemma BlockedGrows(rules: Rules, s: set<Candidate>, t: set<Candidate>, c: Candidate)
    requires s <= t && Blocked(rules, s, c)
    ensures Blocked(rules, t, c)
  {
    CardMonotone(s, t);
    if AtCap(rules, s, c) {
      var op := Operator(rules.operatorOf, c).value;
      CardMonotone(Held(rules, s, op), Held(rules, t, op));
    }
  }

  lemma {:induction false} GreedyBlocks(rules: Rules, ranked: seq<Candidate>)
    ensures forall c :: c in ranked ==> Blocked(rules, Elements(Greedy(rules, ranked)), c)
  {
    if ranked != [] {
      var rest, c := ranked[..|ranked| - 1], ranked[|ranked| - 1];
      GreedyBlocks(rules, rest);
      var before, after := Elements(Greedy(rules, rest)), Elements(Greedy(rules, ranked));
      assert before <= after;
      assert Blocked(rules, after, c);
      forall d | d in ranked
        ensures Blocked(rules, after, d)
      {
        if d != c {
          assert d in rest;
          BlockedGrows(rules, before, after, d);
        }
      }
    }
  }

  /** No other eligible candidate can be added to the selection. */
  lemma SelectionMaximal(a: Auction, candidates: seq<Candidate>, c: Candidate)
    requires !Refused(a, candidates)
    requires c in candidates && Value(a, c) > 0.0 && c !in Selection(a, candidates)
    ensures var ranked := Ranked(a, candidates);
            !Feasible(RulesOf(a, ranked), Elements(Selection(a, candidates)) + {c})
  {
    var ranked := Ranked(a, candidates);
    var rules, s := RulesOf(a, ranked), Elements(Selection(a, candidates));
    EligibleMembers(a, candidates);
    Orders.SortPermutes(Eligible(a, candidates), RankOrder(a));
    GreedyFeasible(rules, ranked);
    GreedyBlocks(rules, ranked);
    assert |s + {c}| == |s| + 1;
    if c.promptIdx in Prompts(s) {
      var d :| d in s && d.promptIdx == c.promptIdx;
      assert d in s + {c} && c in s + {c};
    } else if AtCap(rules, s, c) {
      AddOne(rules, s, c);
    }
  }

  lemma {:induction false} EligibleMembers(a: Auction, candidates: seq<Candidate>)
    ensures forall c :: c in Eligible(a, candidates) <==> c in candidates && Value(a, c) > 0.0
  {
    if candidates != [] {
      EligibleMembers(a, candidates[1..]);
      assert candidates == [candidates[0]] + candidates[1..];
    }
  }

  // ---------------------------------------------------------------- counting a feasible set

  /** One selected candidate keeps at most two members of a feasible set out under a cap (one through its
      prompt, one through its operator), and at most one without. */
  function Charge(rules: Rules, n: int): int { if rules.cap.Some? then n + n else n }

  function ChargeValue(rules: Rules, x: real): real { if rules.cap.Some? then x + x else x }

  lemma {:induction false} PromptCount(s: set<Candidate>)
    ensures |Prompts(s)| <= |s|
    ensures (forall x, y :: x in s && y in s && x.promptIdx == y.promptIdx ==> x == y) ==> |Prompts(s)| == |s|
  {
    if s != {} {
      var c :| c in s;
      PromptCount(s - {c});
      assert Prompts(s) == Prompts(s - {c}) + {c.promptIdx};
    }
  }

  lemma CoveredByPrompts(o: set<Candidate>, s: set<Candidate>)
    requires forall x, y :: x in o && y in o && x.promptIdx == y.promptIdx ==> x == y
    requires forall c :: c in o ==> c.promptIdx in Prompts(s)
    ensures |o| <= |s|
  {
    PromptCount(o);
    PromptCount(s);
    CardMonotone(Prompts(o), Prompts(s));
  }

  /** A set within the cap whose operators have all exhausted it in `s` is no larger than `s`. */
  lemma {:induction false} CoveredByCaps(rules: Rules, o: set<Candidate>, s: set<Candidate>)
    requires rules.cap.Some?
    requires forall op: string :: |Held(rules, o, op)| <= rules.cap.value
    requires forall c :: c in o ==> AtCap(rules, s, c)
    ensures |o| <= |s|
    decreases o
  {
    if o != {} {
      var c :| c in o;
      var op := Operator(rules.operatorOf, c).value;
      var ho, hs := Held(rules, o, op), Held(rules, s, op);
      var o', s' := o - ho, s - hs;
      assert c in ho;
      forall other: string
        ensures |Held(rules, o', other)| <= rules.cap.value
        ensures other != op ==> Held(rules, s', other) == Held(rules, s, other)
      {
        HeldWithout(rules, o, op, other);
        HeldWithout(rules, s, op, other);
      }
      assert forall d :: d in o' ==> Operator(rules.operatorOf, d) != Some(op);
      hide Held, Operator;
      CoveredByCaps(rules, o', s');
      assert |ho| <= rules.cap.value <= |hs|;
      CardSplit(o, ho);
      CardSplit(s, hs);
    }
  }

  lemma HeldWithout(rules: Rules, s: set<Candidate>, op: string, other: string)
    ensures Held(rules, s, op) <= s
    ensures Held(rules, s - Held(rules, s, op), other) == if other == op then {} else Held(rules, s, other)
  {
  }

  lemma CoveredTwice(rules: Rules, o: set<Candidate>, s: set<Candidate>)
    requires Feasible(rules, o) && |s| < rules.batchSize
    requires forall c :: c in o ==> Blocked(rules, s, c)
    ensures |o| <= Charge(rules, |s|)
  {
    var byPrompt := set c | c in o && c.promptIdx in Prompts(s);
    var byCap := o - byPrompt;
    FeasibleSubset(rules, o, byPrompt);
    FeasibleSubset(rules, o, byCap);
    hide Held, Operator;
    CoveredByPrompts(byPrompt, s);
    if rules.cap.Some? {
      CoveredByCaps(rules, byCap, s);
    }
    CardSplit(o, byPrompt);
  }

  lemma FeasibleSubset(rules: Rules, o: set<Candidate>, part: set<Candidate>)
    requires Feasible(rules, o) && part <= o
    ensures Feasible(rules, part)
  {
    CardMonotone(part, o);
    forall op: string | rules.cap.Some?
      ensures |Held(rules, part, op)| <= rules.cap.value
    {
      CardMonotone(Held(rules, part, op), Held(rules, o, op));
    }
  }

  /** On every prefix of the ranking, each selected candidate accounts for at most `Factor` members of a
      feasible set. */
  lemma GreedyCharges(rules: Rules, ranked: seq<Candidate>, o: set<Candidate>)
    requires Feasible(rules, o)
    ensures |o * Elements(ranked)| <= Charge(rules, |Elements(Greedy(rules, ranked))|)
  {
    hide Greedy;
    var s, seen := Elements(Greedy(rules, ranked)), o * Elements(ranked);
    FeasibleSubset(rules, o, seen);
    GreedyBlocks(rules, ranked);
    if |s| < rules.batchSize {
      CoveredTwice(rules, seen, s);
    }
  }

  // ---------------------------------------------------------------- from counts to values

  ghost predicate Descending(value: Candidate -> real, ranked: seq<Candidate>)
  {
    forall i, j :: 0 <= i < j < |ranked| ==> value(ranked[i]) >= value(ranked[j])
  }

  /** `n` times the value `v`, under a name so that proofs only see its laws. */
  function Scale(n: int, v: real): real { n as real * v }

  lemma ScaleAdds(a: int, b: int, v: real)
    ensures Scale(a + b, v) == Scale(a, v) + Scale(b, v)
  {
  }

  lemma ScaleGrows(n: nat, w: real, v: real)
    requires w <= v
    ensures Scale(n, w) <= Scale(n, v)
  {
  }

  /** What the charged selection has over the feasible set is worth at least `w` for every member it could
      still account for. */
  ghost predicate Outweighs(rules: Rules, value: Candidate -> real, s: set<Candidate>, o: set<Candidate>, w: real)
  {
    ChargeValue(rules, Total(value, s)) - Total(value, o) >= Scale(Charge(rules, |s|) - |o|, w)
  }

  lemma {:induction false} GreedyOutweighs(
      rules: Rules, ranked: seq<Candidate>, value: Candidate -> real, o: set<Candidate>, w: real)
    requires Feasible(rules, o) && Descending(value, ranked)
    requires 0.0 <= w && forall c :: c in ranked ==> w <= value(c)
    ensures Outweighs(rules, value, Elements(Greedy(rules, ranked)), o * Elements(ranked), w)
  {
    if ranked == [] {
      assert o * Elements(ranked) == {};
      assert Elements(Greedy(rules, ranked)) == {};
    } else {
      hide Greedy, Outweighs, Total, Charge, ChargeValue, Scale, Feasible;
      var rest, c := ranked[..|ranked| - 1], ranked[|ranked| - 1];
      assert c in ranked;
      LastIsLeast(value, ranked);
      GreedyOutweighs(rules, rest, value, o, value(c));
      var g := SelectedGrows(rules, ranked, value);
      var p := SeenGrows(ranked, value, o);
      GreedyCharges(rules, ranked, o);
      OutweighsStep(rules, value, value(c), w, g, p,
                    Elements(Greedy(rules, rest)), Elements(Greedy(rules, ranked)),
                    o * Elements(rest), o * Elements(ranked));
    }
  }

  lemma LastIsLeast(value: Candidate -> real, ranked: seq<Candidate>)
    requires ranked != [] && Descending(value, ranked)
    ensures Descending(value, ranked[..|ranked| - 1])
    ensures forall d :: d in ranked[..|ranked| - 1] ==> value(ranked[|ranked| - 1]) <= value(d)
  {
    var rest := ranked[..|ranked| - 1];
    forall d | d in rest
      ensures value(ranked[|ranked| - 1]) <= value(d)
    {
      var i :| 0 <= i < |rest| && rest[i] == d;
      assert ranked[i] == d;
    }
  }

  /** One step of summation by parts. */
  lemma OutweighsStep(rules: Rules, value: Candidate -> real, v: real, w: real, g: nat, p: nat,
                      s: set<Candidate>, s': set<Candidate>, o: set<Candidate>, o': set<Candidate>)
    requires 0.0 <= w <= v && Outweighs(rules, value, s, o, v)
    requires |s'| == |s| + g && Total(value, s') == Total(value, s) + Scale(g, v)
    requires |o'| == |o| + p && Total(value, o') == Total(value, o) + Scale(p, v)
    requires |o'| <= Charge(rules, |s'|)
    ensures Outweighs(rules, value, s', o', w)
  {
    hide Total, Scale;
    var d, d' := Charge(rules, |s|) - |o|, Charge(rules, |s'|) - |o'|;
    ScaleAdds(d, Charge(rules, g) - p, v);
    ScaleAdds(Charge(rules, g) - p, p, v);
    ScaleAdds(g, g, v);
    ScaleGrows(d', w, v);
  }

  lemma SelectedGrows(rules: Rules, ranked: seq<Candidate>, value: Candidate -> real) returns (g: nat)
    requires ranked != []
    ensures var rest, c := ranked[..|ranked| - 1], ranked[|ranked| - 1];
            var s, s' := Elements(Greedy(rules, rest)), Elements(Greedy(rules, ranked));
            |s'| == |s| + g && Total(value, s') == Total(value, s) + Scale(g, value(c))
  {
    var rest, c := ranked[..|ranked| - 1], ranked[|ranked| - 1];
    var before := Greedy(rules, rest);
    if Fits(rules, Elements(before), c) {
      AddOne(rules, Elements(before), c);
      TotalAdd(value, Elements(before), c);
      assert Elements(before + [c]) == Elements(before) + {c};
      return 1;
    } else {
      return 0;
    }
  }

  lemma SeenGrows(ranked: seq<Candidate>, value: Candidate -> real, o: set<Candidate>) returns (p: nat)
    requires ranked != []
    ensures var rest, c := ranked[..|ranked| - 1], ranked[|ranked| - 1];
            var seen, seen' := o * Elements(rest), o * Elements(ranked);
            |seen'| == |seen| + p && Total(value, seen') == Total(value, seen) + Scale(p, value(c))
  {
    var rest, c := ranked[..|ranked| - 1], ranked[|ranked| - 1];
    var seen, seen' := o * Elements(rest), o * Elements(ranked);
    assert Elements(ranked) == Elements(rest) + {c};
    if c in o && c !in seen {
      TotalAdd(value, seen, c);
      assert seen' == seen + {c};
      return 1;
    } else {
      assert seen' == seen;
      return 0;
    }
  }

  // ---------------------------------------------------------------- main results

  function ValueOf(a: Auction): Candidate -> real { c => Value(a, c) }

  /** A set of eligible candidates that the rules of this selection allow. */
  ghost predicate Alternative(a: Auction, candidates: seq<Candidate>, o: set<Candidate>)
    requires a.batchSize > 0
  {
    && Feasible(RulesOf(a, Ranked(a, candidates)), o)
    && forall c :: c in o ==> c in candidates && Value(a, c) > 0.0
  }

  lemma RankedByValue(a: Auction, candidates: seq<Candidate>)
    ensures Descending(ValueOf(a), Ranked(a, candidates))
    ensures forall c :: c in Ranked(a, candidates) <==> c in candidates && Value(a, c) > 0.0
  {
    EligibleMembers(a, candidates);
    Orders.SortPermutes(Eligible(a, candidates), RankOrder(a));
    RankIsPreorder(a);
    Orders.SortSorts(Eligible(a, candidates), RankOrder(a));
  }

  lemma RankIsPreorder(a: Auction)
    ensures Orders.TotalPreorder(RankOrder(a))
  {
    var le := RankOrder(a);
    forall x, y
      ensures le(x, y) || le(y, x)
    {
      Orders.LexTotal(a.sha256(KeyBytes(x)), a.sha256(KeyBytes(y)));
    }
    forall x, y, z | le(x, y) && le(y, z)
      ensures le(x, z)
    {
      RankTransitive(a, x, y, z);
    }
  }

  lemma RankTransitive(a: Auction, x: Candidate, y: Candidate, z: Candidate)
    requires RankLe(a, x, y) && RankLe(a, y, z)
    ensures RankLe(a, x, z)
  {
    hide Value, KeyBytes;
    var (kx, ky, kz) := (a.sha256(KeyBytes(x)), a.sha256(KeyBytes(y)), a.sha256(KeyBytes(z)));
    if Orders.LexLe(kx, ky) && Orders.LexLe(ky, kz) {
      Orders.LexTransitive(kx, ky, kz);
    }
  }

  /** The selection is worth at least as much as every alternative when no cap applies, and at least half of
      every alternative when one does. */
  lemma SelectionCompetitive(a: Auction, candidates: seq<Candidate>, o: set<Candidate>)
    requires !Refused(a, candidates)
    requires Alternative(a, candidates, o)
    ensures var total := Total(ValueOf(a), Elements(Selection(a, candidates)));
            Total(ValueOf(a), o) <= if CapApplies(a, Ranked(a, candidates)) then 2.0 * total else total
    ensures Alternative(a, candidates, Elements(Selection(a, candidates)))
  {
    hide Greedy, Total, Value, Scale, Ranked;
    var ranked := Ranked(a, candidates);
    var rules := RulesOf(a, ranked);
    RankedByValue(a, candidates);
    GreedyOutweighs(rules, ranked, ValueOf(a), o, 0.0);
    ScaleZero(Charge(rules, |Elements(Greedy(rules, ranked))|) - |o * Elements(ranked)|);
    assert o * Elements(ranked) == o;
    GreedyFeasible(rules, ranked);
  }

  lemma ScaleZero(n: int)
    ensures Scale(n, 0.0) == 0.0
  {
  }

  /** Without a cap the selection fills the batch or covers every eligible prompt. */
  lemma SelectionSize(a: Auction, candidates: seq<Candidate>)
    requires !Refused(a, candidates)
    requires !CapApplies(a, Ranked(a, candidates))
    ensures var prompts := set c | c in candidates && Value(a, c) > 0.0 :: c.promptIdx;
            |Selection(a, candidates)| == if |prompts| < a.batchSize then |prompts| else a.batchSize
  {
    hide Greedy, Value, Ranked;
    var ranked := Ranked(a, candidates);
    var rules := RulesOf(a, ranked);
    var s := Elements(Greedy(rules, ranked));
    var prompts := set c | c in candidates && Value(a, c) > 0.0 :: c.promptIdx;
    RankedByValue(a, candidates);
    GreedyFeasible(rules, ranked);
    GreedyBlocks(rules, ranked);
    PromptCount(s);
    assert Prompts(s) <= prompts;
    if |s| < rules.batchSize {
      assert Prompts(s) == prompts;
    } else {
      CardMonotone(Prompts(s), prompts);
    }
  }

  // ---------------------------------------------------------------- an auction that loses half

  /** A candidate with mean reward one half; `share` is its deviation as a share of the largest possible one. */
  function Bidder(hotkey: string, prompt: nat, round: nat, share: real, operator: string): Candidate
  {
    Candidate(hotkey, prompt, round, seq(32, _ => 0), 0.5, share / 2.0, 16, None, None, false, false, Some(operator))
  }

  /** The first takes the prompt of the second and the operator of the third. */
  function Bidders(share: real): seq<Candidate>
  {
    [Bidder("x", 1, 0, 1.0, "p"), Bidder("y", 1, 0, share, "q"), Bidder("z", 2, 1, share, "p")]
  }

  /** A batch of two with one slot per operator. */
  function OneSlotEach(delta: real, power: (real, real) -> real, sha256: seq<Byte> -> seq<Byte>): Auction
  {
    Auction(delta, 2, Some(map[]), Some(1), power, sha256)
  }

  const ONE_EACH := Rules(2, Some(1), Some(map[]))

  /** The value of a bidder, with `p` for the power of one half. */
  function Worth(share: real, p: real): real { share / 2.0 * p }

  lemma WorthRises(x: real, y: real, p: real)
    requires x < y && p > 0.0
    ensures Worth(x, p) < Worth(y, p)
  {
    assert (y / 2.0 - x / 2.0) * p > 0.0;
  }

  lemma WorthUnits(x: real, p: real)
    ensures Worth(0.0, p) == 0.0 && Worth(x, p) == x * Worth(1.0, p)
  {
    assert x / 2.0 * p == x * (1.0 / 2.0 * p);
  }

  lemma BidderValue(a: Auction, hotkey: string, prompt: nat, round: nat, share: real, operator: string)
    ensures Value(a, Bidder(hotkey, prompt, round, share, operator)) == Worth(share, a.power(0.5, a.delta))
  {
    assert 1.0 - 0.5 == 0.5;
  }

  lemma BidderValues(a: Auction, share: real)
    requires 0.0 < share < 1.0 && a.power(0.5, a.delta) > 0.0
    ensures var b := Bidders(share); var p := a.power(0.5, a.delta);
            && Value(a, b[0]) == Worth(1.0, p) && Value(a, b[1]) == Value(a, b[2]) == Worth(share, p)
            && Value(a, b[0]) > Value(a, b[1]) > 0.0
  {
    var p := a.power(0.5, a.delta);
    BidderValue(a, "x", 1, 0, 1.0, "p");
    BidderValue(a, "y", 1, 0, share, "q");
    BidderValue(a, "z", 2, 1, share, "p");
    hide Value, Worth, Bidder;
    WorthRises(share, 1.0, p);
    WorthRises(0.0, share, p);
    WorthUnits(0.0, p);
  }

  lemma BiddersRanked(a: Auction, share: real)
    requires 0.0 < share < 1.0 && a.power(0.5, a.delta) > 0.0
    ensures Eligible(a, Bidders(share)) == Bidders(share) && Ranked(a, Bidders(share)) == Bidders(share)
  {
    var b := Bidders(share);
    BidderValues(a, share);
    assert b[1].drandRound < b[2].drandRound;
    hide Value, Bidders;
    assert b[1..] == [b[1], b[2]] && [b[1], b[2]][1..] == [b[2]] && [b[2]][1..] == [];
    assert Eligible(a, [b[2]]) == [b[2]] + Eligible(a, []);
    assert Eligible(a, [b[1], b[2]]) == [b[1]] + Eligible(a, [b[2]]);
    assert Eligible(a, b) == b;
    assert Orders.Sorted(b, RankOrder(a));
    Orders.SortFixesSorted(b, RankOrder(a));
  }

  lemma BiddersSelection(share: real)
    ensures Greedy(ONE_EACH, Bidders(share)) == [Bidders(share)[0]]
  {
    var b := Bidders(share);
    var first := b[0];
    assert Held(ONE_EACH, {}, "p") == {} && Held(ONE_EACH, {first}, "p") == {first};
    assert Elements([]) == {} && Elements([first]) == {first};
    assert b[..2] == [b[0], b[1]] && b[..2][..1] == [first] && [first][..0] == [];
    assert first.promptIdx in Prompts({first});
    assert Greedy(ONE_EACH, [first]) == [first];
    assert Greedy(ONE_EACH, b[..2]) == [first];
  }

  lemma BiddersAlternative(share: real)
    ensures Feasible(ONE_EACH, {Bidders(share)[1], Bidders(share)[2]})
  {
    var b := Bidders(share);
    var o := {b[1], b[2]};
    forall op: string
      ensures |Held(ONE_EACH, o, op)| <= 1
    {
      CardMonotone(Held(ONE_EACH, o, op), if op == "p" then {b[2]} else {b[1]});
    }
  }

  /** No factor below two would do, whatever the exponent: for each there is an auction whose cap applies, and a
      feasible alternative worth more than that factor times the selection. */
  lemma FactorTwoIsTight(factor: real, delta: real, power: (real, real) -> real, sha256: seq<Byte> -> seq<Byte>)
    returns (a: Auction, candidates: seq<Candidate>, o: set<Candidate>)
    requires factor < 2.0 && delta >= 0.0 && power(0.5, delta) > 0.0
    ensures a.delta == delta && a.power == power && a.sha256 == sha256
    ensures !Refused(a, candidates) && CapApplies(a, Ranked(a, candidates)) && Alternative(a, candidates, o)
    ensures Total(ValueOf(a), o) > factor * Total(ValueOf(a), Elements(Selection(a, candidates)))
  {
    var share := if factor <= 0.0 then 0.5 else (factor / 2.0 + 1.0) / 2.0;
    a, candidates := OneSlotEach(delta, power, sha256), Bidders(share);
    o := {candidates[1], candidates[2]};
    hide Refused, CapApplies, Alternative, Selection, Value, Ranked, Total, Worth, Bidder;
    BiddersDiffer(share);
    BiddersCompete(a, share);
    BidderValues(a, share);
    hide Bidders;
    BidderTotals(a, candidates);
    WorthExceeds(factor, share, power(0.5, delta));
  }

  lemma BiddersDiffer(share: real)
    ensures Bidders(share)[1] != Bidders(share)[2]
  {
  }

  lemma WorthExceeds(factor: real, share: real, p: real)
    requires p > 0.0 && factor < 2.0 * share
    ensures Worth(share, p) + Worth(share, p) > factor * Worth(1.0, p)
  {
    WorthUnits(share, p);
    WorthRises(0.0, 1.0, p);
    WorthUnits(0.0, p);
    hide Worth;
    var w := Worth(1.0, p);
    assert (2.0 * share - factor) * w > 0.0;
  }

  lemma BiddersCompete(a: Auction, share: real)
    requires a == OneSlotEach(a.delta, a.power, a.sha256) && a.delta >= 0.0
    requires 0.0 < share < 1.0 && a.power(0.5, a.delta) > 0.0
    ensures var b := Bidders(share);
            && !Refused(a, b) && CapApplies(a, Ranked(a, b)) && Selection(a, b) == [b[0]]
            && Alternative(a, b, {b[1], b[2]})
  {
    BidderValues(a, share);
    BiddersRanked(a, share);
    BiddersSelection(share);
    BiddersAlternative(share);
    hide Greedy, Feasible, Value, Ranked, Eligible;
    var b := Bidders(share);
    assert CapApplies(a, b);
    assert RulesOf(a, b) == ONE_EACH;
  }

  lemma BidderTotals(a: Auction, b: seq<Candidate>)
    requires |b| == 3 && b[1] != b[2]
    ensures Total(ValueOf(a), Elements([b[0]])) == Value(a, b[0])
    ensures Total(ValueOf(a), {b[1], b[2]}) == Value(a, b[1]) + Value(a, b[2])
  {
    hide Value;
    TotalAdd(ValueOf(a), {}, b[0]);
    TotalAdd(ValueOf(a), {}, b[1]);
    TotalAdd(ValueOf(a), {b[1]}, b[2]);
    assert {} + {b[0]} == {b[0]} == Elements([b[0]]) && {} + {b[1]} == {b[1]} && {b[1]} + {b[2]} == {b[1], b[2]};
  }
}

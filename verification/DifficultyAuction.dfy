/** Candidate ranking and greedy selection of `scripts/report_difficulty_auction.py`. */
module DifficultyAuction {
  import opened Wrappers
  import Orders
  import Text

  type Byte = b: int | 0 <= b < 256

  const PROMPT_BOUND: nat := 0x1_0000_0000_0000_0000  // `to_bytes(8, "big", signed=False)` refuses more

  datatype Candidate = Candidate(
    hotkey: string, promptIdx: nat, drandRound: nat, selectionDigest: seq<Byte>,
    meanReward: real, rewardStd: real, rewardCount: nat,
    arrivalAge: Option<real>, responseTime: Option<real>,
    productionSelected: bool, productionRewarded: bool, operatorId: Option<string>)

  /** The arguments of one selection, with `power` for real exponentiation and `sha256` for the hash. */
  datatype Auction = Auction(
    delta: real, batchSize: int, operatorOf: Option<map<string, string>>, maxSlots: Option<int>,
    power: (real, real) -> real, sha256: seq<Byte> -> seq<Byte>)

  function Value(a: Auction, c: Candidate): real
  {
    c.rewardStd * a.power(1.0 - c.meanReward, a.delta)
  }

  // ---------------------------------------------------------------- operators

  function NormalizedIdentity(value: Option<string>): Option<string>
  {
    if value.None? || Text.Strip(value.value) == "" then None else Some(Text.Strip(value.value))
  }

  /** `_candidate_operator`: the archived operator, else the external mapping of the hotkey. */
  function Operator(operatorOf: Option<map<string, string>>, c: Candidate): Option<string>
  {
    if c.operatorId.Some? && c.operatorId.value != "" then c.operatorId
    else if operatorOf.Some? && c.hotkey in operatorOf.value
    then NormalizedIdentity(Some(operatorOf.value[c.hotkey]))
    else None
  }

  // ---------------------------------------------------------------- ranking

  function Utf8(s: string): seq<Byte>
  {
    if s == [] then [] else Utf8Char(s[0]) + Utf8(s[1..])
  }

  function Utf8Char(ch: char): seq<Byte>
  {
    var c := ch as int;
    if c < 0x80 then [c]
    else if c < 0x800 then [0xC0 + c / 0x40, 0x80 + c % 0x40]
    else if c < 0x1_0000 then [0xE0 + c / 0x1000, 0x80 + c / 0x40 % 0x40, 0x80 + c % 0x40]
    else [0xF0 + c / 0x4_0000, 0x80 + c / 0x1000 % 0x40, 0x80 + c / 0x40 % 0x40, 0x80 + c % 0x40]
  }

  function BigEndian(n: nat, width: nat): (bytes: seq<Byte>)
    ensures |bytes| == width
  {
    if width == 0 then [] else BigEndian(n / 256, width - 1) + [n % 256]
  }

  /** What `_canonical_key` feeds to the hash. */
  function KeyBytes(c: Candidate): seq<Byte>
  {
    Utf8(c.hotkey) + BigEndian(c.promptIdx, 8) + c.selectionDigest
  }

  /** The sort key `(-value, drand_round, canonical_key)`, compared as Python compares tuples. */
  predicate RankLe(a: Auction, x: Candidate, y: Candidate)
  {
    || Value(a, x) > Value(a, y)
    || (Value(a, x) == Value(a, y) &&
        (x.drandRound < y.drandRound ||
         (x.drandRound == y.drandRound && Orders.LexLe(a.sha256(KeyBytes(x)), a.sha256(KeyBytes(y))))))
  }

  function RankOrder(a: Auction): (Candidate, Candidate) -> bool
  {
    (x, y) => RankLe(a, x, y)
  }

  function Eligible(a: Auction, candidates: seq<Candidate>): seq<Candidate>
  {
    if candidates == [] then []
    else (if Value(a, candidates[0]) > 0.0 then [candidates[0]] else []) + Eligible(a, candidates[1..])
  }

  function Ranked(a: Auction, candidates: seq<Candidate>): seq<Candidate>
  {
    Orders.Sort(Eligible(a, candidates), RankOrder(a))
  }

  // ---------------------------------------------------------------- selection

  /** The constraints of one selection. `cap` is present exactly when the operator cap applies. */
  datatype Rules = Rules(batchSize: nat, cap: Option<nat>, operatorOf: Option<map<string, string>>)

  predicate CapApplies(a: Auction, ranked: seq<Candidate>)
  {
    && a.maxSlots.Some? && a.maxSlots.value > 0
    && a.operatorOf.Some?
    && ranked != []
    && forall c :: c in ranked ==> Operator(a.operatorOf, c).Some?
  }

  function RulesOf(a: Auction, ranked: seq<Candidate>): Rules
    requires a.batchSize > 0
  {
    Rules(a.batchSize, if CapApplies(a, ranked) then Some(a.maxSlots.value) else None, a.operatorOf)
  }

  ghost function Elements(s: seq<Candidate>): set<Candidate> { set c | c in s }

  ghost function Prompts(s: set<Candidate>): set<nat> { set c | c in s :: c.promptIdx }

  /** The members of `s` that operator `op` holds. */
  ghost function Held(rules: Rules, s: set<Candidate>, op: string): set<Candidate>
  {
    set c | c in s && Operator(rules.operatorOf, c) == Some(op)
  }

  ghost predicate AtCap(rules: Rules, s: set<Candidate>, c: Candidate)
  {
    && rules.cap.Some?
    && Operator(rules.operatorOf, c).Some?
    && |Held(rules, s, Operator(rules.operatorOf, c).value)| >= rules.cap.value
  }

  /** Distinct prompts, at most `batchSize` members and, under a cap, at most `cap` per operator. */
  ghost predicate Feasible(rules: Rules, s: set<Candidate>)
  {
    && |s| <= rules.batchSize
    && (forall x, y :: x in s && y in s && x.promptIdx == y.promptIdx ==> x == y)
    && (rules.cap.Some? ==> forall op: string :: |Held(rules, s, op)| <= rules.cap.value)
  }

  ghost predicate Fits(rules: Rules, s: set<Candidate>, c: Candidate)
  {
    |s| < rules.batchSize && c.promptIdx !in Prompts(s) && !AtCap(rules, s, c)
  }

  /** The greedy pass over a ranked list. */
  ghost function Greedy(rules: Rules, ranked: seq<Candidate>): seq<Candidate>
  {
    if ranked == [] then [] else
    var before := Greedy(rules, ranked[..|ranked| - 1]);
    var c := ranked[|ranked| - 1];
    if Fits(rules, Elements(before), c) then before + [c] else before
  }

  ghost function Selection(a: Auction, candidates: seq<Candidate>): seq<Candidate>
    requires a.batchSize > 0
  {
    Greedy(RulesOf(a, Ranked(a, candidates)), Ranked(a, candidates))
  }

  /** When `select_candidates` raises: a non-positive size or cap, a negative exponent with something to
      value, or an eligible prompt index that does not fit in eight bytes. */
  predicate Refused(a: Auction, candidates: seq<Candidate>)
  {
    || a.batchSize <= 0
    || (a.maxSlots.Some? && a.maxSlots.value <= 0)
    || (candidates != [] && a.delta < 0.0)
    || exists c :: c in Eligible(a, candidates) && c.promptIdx >= PROMPT_BOUND
  }

  /** The claimed prompts and the operator counter describe the selected candidates. */
  ghost predicate Tracks(rules: Rules, selected: seq<Candidate>, claimed: set<nat>, slots: map<string, nat>)
  {
    && |Elements(selected)| == |selected|
    && claimed == Prompts(Elements(selected))
    && forall op: string :: |Held(rules, Elements(selected), op)| == SlotsOf(slots, op)
  }

  function SlotsOf(slots: map<string, nat>, op: string): nat { if op in slots then slots[op] else 0 }

  function Bump(slots: map<string, nat>, operator: Option<string>): map<string, nat>
  {
    if operator.Some? then slots[operator.value := SlotsOf(slots, operator.value) + 1] else slots
  }

  /** `select_candidates`. */
  method SelectCandidates(a: Auction, candidates: seq<Candidate>) returns (r: Result<seq<Candidate>>)
    ensures r.Ok? <==> !Refused(a, candidates)
    ensures r.Ok? ==> r.value == Selection(a, candidates)
  {
    if Refused(a, candidates) {
      return Err("invalid selection arguments");
    }
    var ranked := Ranked(a, candidates);
    var selected := GreedyPass(RulesOf(a, ranked), ranked);
    return Ok(selected);
  }

  /** The test of the loop, on what it tracks. */
  predicate Admits(rules: Rules, count: nat, claimed: set<nat>, slots: map<string, nat>, c: Candidate)
  {
    var operator := Operator(rules.operatorOf, c);
    && count < rules.batchSize
    && c.promptIdx !in claimed
    && !(rules.cap.Some? && operator.Some? && SlotsOf(slots, operator.value) >= rules.cap.value)
  }

  /** The loop of `select_candidates`, with its claimed-prompt set and its per-operator counter. */
  method GreedyPass(rules: Rules, ranked: seq<Candidate>) returns (selected: seq<Candidate>)
    ensures selected == Greedy(rules, ranked)
  {
    selected := [];
    var claimed: set<nat> := {};
    var slots: map<string, nat> := map[];
    var i := 0;
    while i < |ranked| && |selected| < rules.batchSize
      invariant 0 <= i <= |ranked|
      invariant selected == Greedy(rules, ranked[..i])
      invariant Tracks(rules, selected, claimed, slots)
    {
      var c := ranked[i];
      assert ranked[..i + 1][..i] == ranked[..i];
      TracksFits(rules, selected, claimed, slots, c);
      if Admits(rules, |selected|, claimed, slots, c) {
        TracksAdd(rules, selected, claimed, slots, c);
        selected := selected + [c];
        claimed := claimed + {c.promptIdx};
        slots := Bump(slots, Operator(rules.operatorOf, c));
      }
      hide *;
      i := i + 1;
    }
    GreedyStops(rules, ranked, i);
  }

  lemma TracksFits(rules: Rules, selected: seq<Candidate>, claimed: set<nat>, slots: map<string, nat>, c: Candidate)
    requires Tracks(rules, selected, claimed, slots)
    ensures Fits(rules, Elements(selected), c) <==> Admits(rules, |selected|, claimed, slots, c)
  {
  }

  lemma TracksAdd(rules: Rules, selected: seq<Candidate>, claimed: set<nat>, slots: map<string, nat>, c: Candidate)
    requires Tracks(rules, selected, claimed, slots) && c.promptIdx !in claimed
    ensures Tracks(rules, selected + [c], claimed + {c.promptIdx}, Bump(slots, Operator(rules.operatorOf, c)))
  {
    AddOne(rules, Elements(selected), c);
    assert Elements(selected + [c]) == Elements(selected) + {c};
  }

  lemma AddOne(rules: Rules, s: set<Candidate>, c: Candidate)
    requires c.promptIdx !in Prompts(s)
    ensures c !in s && |s + {c}| == |s| + 1
    ensures Prompts(s + {c}) == Prompts(s) + {c.promptIdx}
    ensures forall op :: |Held(rules, s + {c}, op)|
                         == |Held(rules, s, op)| + if Operator(rules.operatorOf, c) == Some(op) then 1 else 0
  {
    forall op
      ensures |Held(rules, s + {c}, op)|
              == |Held(rules, s, op)| + if Operator(rules.operatorOf, c) == Some(op) then 1 else 0
    {
      if Operator(rules.operatorOf, c) == Some(op) {
        assert Held(rules, s + {c}, op) == Held(rules, s, op) + {c};
      } else {
        assert Held(rules, s + {c}, op) == Held(rules, s, op);
      }
    }
  }

  /** Once the batch is full the greedy pass changes nothing more. */
  lemma {:induction false} GreedyStops(rules: Rules, ranked: seq<Candidate>, i: nat)
    requires i <= |ranked|
    requires |Elements(Greedy(rules, ranked[..i]))| >= rules.batchSize || i == |ranked|
    ensures Greedy(rules, ranked[..i]) == Greedy(rules, ranked)
    decreases |ranked| - i
  {
    if i == |ranked| {
      assert ranked[..i] == ranked;
    } else {
      assert ranked[..i + 1][..i] == ranked[..i];
      GreedyStops(rules, ranked, i + 1);
    }
  }
}

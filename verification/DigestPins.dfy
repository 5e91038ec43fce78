/** The pinned-digest rewriter of `scripts/regen_episode_manifests.py`. */
module DigestPins {
  import opened Wrappers
  import opened Text
  import opened Splitting

  const KEY := "environment_manifest_sha256=(\n"

  predicate All(p: char -> bool, t: string) { forall c :: c in t ==> p(c) }

  /** A digest pin: two quoted pieces on lines of their own, each after some white space. */
  datatype Pin = Pin(indent: string, head: string, gap: string, tail: string)

  function Spell(pin: Pin): string
  {
    KEY + pin.indent + "\"" + pin.head + "\"" + ("\n" + pin.gap) + "\"" + pin.tail + "\""
  }

  /** What the pattern admits: white space before the pieces, and pieces of at least one hexadecimal digit. */
  predicate Admitted(pin: Pin)
  {
    All(IsSpace, pin.indent) && All(IsSpace, pin.gap) && All(IsHex, pin.head) && All(IsHex, pin.tail) &&
    pin.head != [] && pin.tail != []
  }

  // ---------------------------------------------------------------- the pattern

  /** The longest beginning of `t` whose characters satisfy `p`. */
  function Run(p: char -> bool, t: string): (run: string)
    ensures run <= t
  {
    if t == [] || !p(t[0]) then [] else [t[0]] + Run(p, t[1..])
  }

  lemma {:induction false} RunIs(p: char -> bool, run: string, rest: string)
    requires All(p, run) && (rest == [] || !p(rest[0]))
    ensures Run(p, run + rest) == run
  {
    if run == [] {
      assert run + rest == rest;
    } else {
      RunIs(p, run[1..], rest);
      assert (run + rest)[1..] == run[1..] + rest;
    }
  }

  lemma {:induction false} RunSatisfies(p: char -> bool, t: string)
    ensures All(p, Run(p, t))
  {
    if t != [] && p(t[0]) {
      RunSatisfies(p, t[1..]);
    }
  }

  /** A quoted piece at the beginning of `t`, after a run of white space. */
  function MatchPiece(t: string): Option<(string, string)>
  {
    var space := Run(IsSpace, t);
    var t1 := t[|space|..];
    if !("\"" <= t1) then None else
    var piece := Run(IsHex, t1[1..]);
    if piece == [] || !("\"" <= t1[1 + |piece|..]) then None else Some((space, piece))
  }

  function SpellPiece(space: string, piece: string): string { space + "\"" + piece + "\"" }

  predicate PieceAdmitted(space: string, piece: string) { All(IsSpace, space) && All(IsHex, piece) && piece != [] }

  lemma PieceMatches(space: string, piece: string, rest: string)
    requires PieceAdmitted(space, piece)
    ensures MatchPiece(SpellPiece(space, piece) + rest) == Some((space, piece))
  {
    hide Run;
    var t := SpellPiece(space, piece) + rest;
    var after := piece + ("\"" + rest);
    assert t == space + ("\"" + after);
    RunIs(IsSpace, space, "\"" + after);
    RunIs(IsHex, piece, "\"" + rest);
    assert t[|space|..] == "\"" + after;
    assert ("\"" + after)[1..] == after;
    assert ("\"" + after)[1 + |piece|..] == "\"" + rest;
  }

  lemma MatchedPiece(t: string)
    requires MatchPiece(t).Some?
    ensures var (space, piece) := MatchPiece(t).value;
            PieceAdmitted(space, piece) && SpellPiece(space, piece) <= t
  {
    hide Run, All, IsSpace, IsHex;
    var (space, piece) := MatchPiece(t).value;
    RunSatisfies(IsSpace, t);
    var t1 := t[|space|..];
    RunSatisfies(IsHex, t1[1..]);
    hide MatchPiece;
    var t2 := t1[1 + |piece|..];
    assert t1 == "\"" + piece + "\"" + t2[1..];
    assert t == space + t1;
  }

  /** The pattern `_DIGEST` at the beginning of `t`. */
  function MatchPin(t: string): Option<Pin>
  {
    if !(KEY <= t) then None else
    match MatchPiece(t[|KEY|..])
    case None => None
    case Some((indent, head)) =>
      var front := KEY + SpellPiece(indent, head) + "\n";
      if !(front <= t) then None else
      match MatchPiece(t[|front|..])
      case None => None
      case Some((gap, tail)) => Some(Pin(indent, head, gap, tail))
  }

  lemma SpellInPieces(pin: Pin)
    ensures Spell(pin) == KEY + SpellPiece(pin.indent, pin.head) + "\n" + SpellPiece(pin.gap, pin.tail)
  {
  }

  /** The matcher finds a pin exactly when the text begins with the spelling of an admitted pin: the one it finds. */
  lemma MatchPinIff(t: string, pin: Pin)
    ensures MatchPin(t) == Some(pin) <==> Admitted(pin) && Spell(pin) <= t
  {
    SpellInPieces(pin);
    hide Spell, MatchPiece, SpellPiece;
    if Admitted(pin) && Spell(pin) <= t {
      SpelledIsMatched(t, pin);
    }
    if MatchPin(t) == Some(pin) {
      MatchedIsSpelled(t, pin);
    }
  }

  lemma SpelledIsMatched(t: string, pin: Pin)
    requires Admitted(pin) && Spell(pin) <= t
    ensures MatchPin(t) == Some(pin)
  {
    SpellInPieces(pin);
    hide Spell, MatchPiece, SpellPiece;
    var first, second := SpellPiece(pin.indent, pin.head), SpellPiece(pin.gap, pin.tail);
    var front, rest := KEY + first + "\n", t[|Spell(pin)|..];
    assert t == Spell(pin) + rest;
    assert t[|KEY|..] == first + ("\n" + second + rest);
    PieceMatches(pin.indent, pin.head, "\n" + second + rest);
    assert t[|front|..] == second + rest;
    PieceMatches(pin.gap, pin.tail, rest);
  }

  lemma MatchedIsSpelled(t: string, pin: Pin)
    requires MatchPin(t) == Some(pin)
    ensures Admitted(pin) && Spell(pin) <= t
  {
    SpellInPieces(pin);
    hide Spell, MatchPiece, SpellPiece;
    MatchedPiece(t[|KEY|..]);
    var front := KEY + SpellPiece(pin.indent, pin.head) + "\n";
    MatchedPiece(t[|front|..]);
    assert t == front + t[|front|..];
  }

  /** The first position from `i` to `n` where the search succeeds. */
  function FirstFrom<T>(at: nat -> Option<T>, i: nat, n: nat): (r: Option<(nat, T)>)
    requires i <= n
    ensures r.Some? ==>
              && i <= r.value.0 <= n && at(r.value.0) == Some(r.value.1)
              && forall j :: i <= j < r.value.0 ==> at(j).None?
    ensures r.None? ==> forall j :: i <= j <= n ==> at(j).None?
    decreases n - i
  {
    if at(i).Some? then Some((i, at(i).value)) else if i == n then None else FirstFrom(at, i + 1, n)
  }

  function PinFrom(t: string, i: nat): Option<Pin> { if i <= |t| then MatchPin(t[i..]) else None }

  /** Where `re.sub` with a count of one works: the leftmost pin. */
  function FirstPin(t: string): (r: Option<(nat, Pin)>)
    ensures r.Some? ==> PinAt(t, r.value.0, r.value.1)
  {
    var r := FirstFrom(i => PinFrom(t, i), 0, |t|);
    if r.Some? then PinFromIff(t, r.value.0, r.value.1); r else None
  }

  lemma PinFromIff(t: string, i: nat, pin: Pin)
    ensures PinFrom(t, i) == Some(pin) <==> PinAt(t, i, pin)
  {
    if i <= |t| {
      MatchPinIff(t[i..], pin);
      hide MatchPin, Admitted, Spell;
      assert Spell(pin) <= t[i..] <==> OccursAt(Spell(pin), t, i);
    }
  }

  /** The spelling of an admitted pin stands at position `i`. */
  predicate PinAt(t: string, i: nat, pin: Pin) { Admitted(pin) && OccursAt(Spell(pin), t, i) }

  // ---------------------------------------------------------------- the rewrite

  /** The new pin: the digest split where the old one was, and the first piece's white space twice. */
  function NewPin(pin: Pin, digest: string): Pin
  {
    Pin(pin.indent, Take(digest, |pin.head|), pin.indent, if |digest| <= |pin.head| then [] else digest[|pin.head|..])
  }

  function Replace(t: string, i: nat, old': string, new': string): string
    requires OccursAt(old', t, i)
  {
    t[..i] + new' + t[i + |old'|..]
  }

  /** The block with its first pin rewritten. */
  function Patched(block: string, digest: string): Option<string>
  {
    match FirstPin(block)
    case None => None
    case Some((i, pin)) => Some(Replace(block, i, Spell(pin), Spell(NewPin(pin, digest))))
  }

  /** The block names the contract: its quoted name followed by a comma occurs in it. */
  predicate Names(block: string, contract: string) { Contains("\"" + contract + "\",", block) }

  /** The numbers of the blocks that name the contract; the part before the first opener is no block. */
  function Hits(parts: seq<string>, contract: string): (hits: seq<nat>)
    ensures forall k :: k in hits <==> 0 < k < |parts| && Names(parts[k], contract)
  {
    if |parts| <= 1 then [] else
    var k := |parts| - 1;
    Hits(parts[..k], contract) + if Names(parts[k], contract) then [k] else []
  }

  /** What `_rewrite_block` makes of the file's text; without a value it leaves the file alone. */
  function Rewrite(text: string, opener: string, contract: string, digest: string,
      required: bool): Result<Option<string>>
  {
    if opener == [] then Err("empty separator") else
    var parts := Split(opener, text);
    var hits := Hits(parts, contract);
    if hits == [] && !required then Ok(None)
    else if |hits| != 1 then Err("not exactly one block")
    else
      assert hits[0] in hits;
      var patched := Patched(parts[hits[0]], digest);
      if patched == None then Err("no digest pin") else Ok(Some(Join(opener, parts[hits[0] := patched.value])))
  }
}

/** Digest rewrites of whole files. */
module DigestFiles {
  import opened Wrappers
  import opened Text
  import opened Splitting
  import opened DigestPins
  import opened DigestRewrites

  class SourceFile {
    var text: string

    /** `_rewrite_block`: whether a block was rewritten, or an error that leaves the file as it was. */
    method RewriteBlock(opener: string, contract: string, digest: string, required: bool) returns (r: Result<bool>)
      modifies this
      ensures match Rewrite(old(text), opener, contract, digest, required)
              case Ok(Some(new')) => r == Ok(true) && text == new'
              case Ok(None) => r == Ok(false) && text == old(text)
              case Err(reason) => r == Err(reason) && text == old(text)
    {
      hide Patched, Hits, Join, Split;
      if opener == [] {
        return Err("empty separator");
      }
      var parts := Split(opener, text);
      var hits := Hits(parts, contract);
      if hits == [] && !required {
        return Ok(false);
      }
      if |hits| != 1 {
        return Err("not exactly one block");
      }
      var index := hits[0];
      assert index in hits;
      var patched := Patched(parts[index], digest);
      if patched == None {
        return Err("no digest pin");
      }
      parts := parts[index := patched.value];
      text := Join(opener, parts);
      return Ok(true);
    }
  }

  /** The parts, the one block that names the contract, and that block's text before, in and after its first pin. */
  ghost predicate Rewrites(text: string, o: string, c: string, k: nat, u: string, pin: Pin, v: string)
    requires o != []
  {
    Hits(Split(o, text), c) == [k] && 0 < k < |Split(o, text)| && Site(Split(o, text)[k], u, pin, v)
  }

  /** A rewrite succeeds exactly when one block names the contract and that block has a pin. */
  lemma SuccessIff(text: string, o: string, c: string, d: string, required: bool)
    requires o != []
    ensures (exists new' :: Rewrite(text, o, c, d, required) == Ok(Some(new')))
            <==> exists k: nat, u, pin, v :: Rewrites(text, o, c, k, u, pin, v)
  {
    var parts := Split(o, text);
    var hits := Hits(parts, c);
    if Rewrite(text, o, c, d, required).Ok? && Rewrite(text, o, c, d, required).value.Some? {
      assert hits[0] in hits && hits == [hits[0]];
      var u, pin, v := HasSite(parts[hits[0]]);
      assert Rewrites(text, o, c, hits[0], u, pin, v);
    }
    if k: nat, u, pin, v :| Rewrites(text, o, c, k, u, pin, v) {
      RewriteIs(text, o, c, k, u, pin, v, d, required);
    }
  }

  /** The file with the pin between `u` and `v` in block `k`. */
  function Repinned(text: string, o: string, k: nat, u: string, pin: Pin, v: string): string
    requires o != [] && k < |Split(o, text)|
  {
    Join(o, Split(o, text)[k := u + Spell(pin) + v])
  }

  lemma RewriteIs(text: string, o: string, c: string, k: nat, u: string, pin: Pin, v: string, d: string, required: bool)
    requires o != [] && Rewrites(text, o, c, k, u, pin, v)
    ensures Rewrite(text, o, c, d, required) == Ok(Some(Repinned(text, o, k, u, NewPin(pin, d), v)))
  {
    hide Split, Hits, Join, Spell, NewPin, Patched, Site;
    PatchedSite(Split(o, text)[k], u, pin, v, d);
  }

  /** Replacing one part by another that holds no opener where the old one held none keeps the parts separated. */
  lemma ReplacedStaysSeparated(o: string, parts: seq<string>, k: nat, part: string)
    requires o != [] && Separated(o, parts) && k < |parts|
    requires Contains(o, part + o[..|o| - 1]) == Contains(o, parts[k] + o[..|o| - 1])
    requires Contains(o, part) == Contains(o, parts[k])
    ensures Separated(o, parts[k := part])
  {
    hide Contains;
  }

  lemma RepinnedStaysSeparated(o: string, parts: seq<string>, k: nat, u: string, pin: Pin, pin': Pin, v: string)
    requires Distinctive(o) && Shaped(pin) && Shaped(pin') && pin'.indent == pin.indent
    requires o != [] && Separated(o, parts) && k < |parts| && parts[k] == u + Spell(pin) + v
    ensures Separated(o, parts[k := u + Spell(pin') + v])
  {
    hide *;
    var part := u + Spell(pin') + v;
    OpenerKept(o, u, pin, pin', v, o[..|o| - 1]);
    OpenerKept(o, u, pin, pin', v, []);
    assert part + [] == part && parts[k] + [] == parts[k];
    ReplacedStaysSeparated(o, parts, k, part);
  }

  /** A rewrite changes its own block only: the file splits into the same blocks but for the one rewritten. */
  lemma RewriteFrame(text: string, o: string, c: string, k: nat, u: string, pin: Pin, v: string, d: string)
    requires Distinctive(o) && All(IsHex, d) && o != [] && Rewrites(text, o, c, k, u, pin, v)
    ensures Split(o, Repinned(text, o, k, u, NewPin(pin, d), v)) == Split(o, text)[k := u + Spell(NewPin(pin, d)) + v]
  {
    hide Split, Join, Spell, Distinctive, Shaped, All, Separated, Hits, FirstPin;
    var parts, pin' := Split(o, text), NewPin(pin, d);
    NewPinShaped(pin, d);
    SplitSeparates(o, text);
    RepinnedStaysSeparated(o, parts, k, u, pin, pin', v);
    hide NewPin, Admitted;
    SplitInvertsJoin(o, parts[k := u + Spell(pin') + v]);
  }

  /** After a rewrite the same blocks name each contract. */
  lemma HitsKept(text: string, o: string, c: string, k: nat, u: string, pin: Pin, v: string, d: string, c': string)
    requires Distinctive(o) && All(IsHex, d) && o != [] && Rewrites(text, o, c, k, u, pin, v) && Distinctive(c')
    ensures Hits(Split(o, Repinned(text, o, k, u, NewPin(pin, d), v)), c') == Hits(Split(o, text), c')
  {
    hide Split, Join, Spell, Distinctive, Shaped, All, Hits, FirstPin, Names, Repinned;
    RewriteFrame(text, o, c, k, u, pin, v, d);
    var parts, pin' := Split(o, text), NewPin(pin, d);
    NewPinShaped(pin, d);
    NamesKept(c', u, pin, pin', v);
    hide NewPin, Admitted;
    HitsAgree(parts, parts[k := u + Spell(pin') + v], c');
  }

  lemma {:induction false} HitsAgree(parts: seq<string>, parts': seq<string>, c: string)
    requires |parts'| == |parts| && forall k :: 0 <= k < |parts| ==> Names(parts'[k], c) == Names(parts[k], c)
    ensures Hits(parts', c) == Hits(parts, c)
  {
    hide Names;
    if |parts| > 1 {
      HitsAgree(parts[..|parts| - 1], parts'[..|parts| - 1], c);
    }
  }

  /** A successful rewrite pins the digest in two pieces, and the same rewrite again gives the same file. */
  lemma RepeatIsIdentity(text: string, o: string, c: string, k: nat, u: string, pin: Pin, v: string, d: string,
      required: bool)
    requires Distinctive(o) && Distinctive(c) && All(IsHex, d) && o != [] && Rewrites(text, o, c, k, u, pin, v)
    requires |pin.head| < |d|
    ensures var pin' := NewPin(pin, d);
            var new' := Repinned(text, o, k, u, pin', v);
            && Rewrites(new', o, c, k, u, pin', v) && pin'.head + pin'.tail == d
            && Rewrite(new', o, c, d, required) == Ok(Some(new'))
  {
    hide Split, Join, Spell, Hits, Distinctive, All, Site, Rewrite, Patched;
    var parts, pin' := Split(o, text), NewPin(pin, d);
    var part, new' := u + Spell(pin') + v, Repinned(text, o, k, u, pin', v);
    PatchedAgain(parts[k], u, pin, v, d);
    assert NewPin(pin', d) == pin';
    hide NewPin;
    RewriteFrame(text, o, c, k, u, pin, v, d);
    HitsKept(text, o, c, k, u, pin, v, d, c);
    assert Split(o, new')[k] == part && Split(o, new')[k := part] == Split(o, new');
    RewriteIs(new', o, c, k, u, pin', v, d, required);
  }

  /** After a rewrite that hid its pin, the same rewrite works on what follows in the block. */
  lemma NextSite(text: string, o: string, c: string, k: nat, u: string, pin: Pin, v: string, d: string,
                 u2: string, pin2: Pin, v2: string)
    requires Distinctive(o) && Distinctive(c) && All(IsHex, d) && o != [] && Rewrites(text, o, c, k, u, pin, v)
    requires |d| <= |pin.head| && Site(v, u2, pin2, v2)
    ensures var front := u + Spell(NewPin(pin, d));
            Rewrites(Repinned(text, o, k, u, NewPin(pin, d), v), o, c, k, front + u2, pin2, v2)
  {
    hide Split, Join, Spell, NewPin, Hits, Distinctive, All, Site, Repinned;
    HiddenThenNext(Split(o, text)[k], u, pin, v, d);
    RewriteFrame(text, o, c, k, u, pin, v, d);
    HitsKept(text, o, c, k, u, pin, v, d, c);
  }

  /** A rewrite gives back the file exactly when its pin already spells the digest. */
  lemma RewriteFixes(text: string, o: string, c: string, k: nat, u: string, pin: Pin, v: string, d: string,
      required: bool)
    requires Distinctive(o) && All(IsHex, d) && o != [] && Rewrites(text, o, c, k, u, pin, v)
    ensures Rewrite(text, o, c, d, required) == Ok(Some(text)) <==> AlreadyPins(pin, d)
    ensures Rewrite(text, o, c, d, required).Ok?
  {
    hide Split, Join, Spell, NewPin, Hits, Distinctive, All, Rewrite, FirstPin, Admitted;
    RewriteIs(text, o, c, k, u, pin, v, d, required);
    RewriteFrame(text, o, c, k, u, pin, v, d);
    RewritingFixes(pin, d);
    var parts := Split(o, text);
    if AlreadyPins(pin, d) {
      assert parts[k := u + Spell(pin) + v] == parts;
      JoinInvertsSplit(o, text);
    } else {
      var spelt, spelt' := u + Spell(pin) + v, u + Spell(NewPin(pin, d)) + v;
      if spelt == spelt' {
        MiddleDiffers(u, Spell(pin), Spell(NewPin(pin, d)), v);
      }
    }
  }

  lemma MiddleDiffers(u: string, m: string, m': string, v: string)
    requires u + m + v == u + m' + v
    ensures m == m'
  {
    var t := u + m + v;
    assert |m| == |m'|;
    assert m == t[|u|..|u| + |m|] && m' == t[|u|..|u| + |m|];
  }

  /** The same rewrite again gives the same file exactly when the digest is longer than the pin's first piece, or the
      next pin in the block already spells the digest. It is refused exactly when the digest is no longer and the block
      has no other pin. In every remaining case it rewrites that other pin. */
  lemma RepeatIff(text: string, o: string, c: string, k: nat, u: string, pin: Pin, v: string, d: string, required: bool)
    requires Distinctive(o) && Distinctive(c) && All(IsHex, d) && o != [] && Rewrites(text, o, c, k, u, pin, v)
    ensures var new' := Repinned(text, o, k, u, NewPin(pin, d), v);
            var again := Rewrite(new', o, c, d, required);
            && (again == Ok(Some(new')) <==>
                  |pin.head| < |d| || (FirstPin(v).Some? && AlreadyPins(FirstPin(v).value.1, d)))
            && (again.Err? <==> |d| <= |pin.head| && FirstPin(v).None?)
  {
    hide *;
    if |pin.head| < |d| {
      RepeatIsIdentity(text, o, c, k, u, pin, v, d, required);
    } else if FirstPin(v).Some? {
      var u2, pin2, v2 := HasSite(v);
      SiteParts(v, u2, pin2, v2);
      InRange(text, o, c, k, u, pin, v);
      NextSite(text, o, c, k, u, pin, v, d, u2, pin2, v2);
      var new', front := Repinned(text, o, k, u, NewPin(pin, d), v), u + Spell(NewPin(pin, d));
      RewriteFixes(new', o, c, k, front + u2, pin2, v2, d, required);
    } else {
      NothingLeft(text, o, c, k, u, pin, v, d, required);
    }
  }

  lemma InRange(text: string, o: string, c: string, k: nat, u: string, pin: Pin, v: string)
    requires o != [] && Rewrites(text, o, c, k, u, pin, v)
    ensures k < |Split(o, text)|
  {
  }

  lemma NothingLeft(text: string, o: string, c: string, k: nat, u: string, pin: Pin, v: string, d: string,
      required: bool)
    requires Distinctive(o) && Distinctive(c) && All(IsHex, d) && o != [] && Rewrites(text, o, c, k, u, pin, v)
    requires |d| <= |pin.head| && FirstPin(v).None?
    ensures Rewrite(Repinned(text, o, k, u, NewPin(pin, d), v), o, c, d, required) == Err("no digest pin")
  {
    hide Split, Join, Spell, NewPin, Hits, Distinctive, All, Site, Patched, Repinned, FirstPin;
    HiddenThenNext(Split(o, text)[k], u, pin, v, d);
    RewriteFrame(text, o, c, k, u, pin, v, d);
    HitsKept(text, o, c, k, u, pin, v, d, c);
    NoPinNoPatch(u + Spell(NewPin(pin, d)) + v, d);
  }

  /** Rewrites of two contracts in different blocks give the same file in either order. */
  lemma RewritesCommute(text: string, o: string, c: string, k: nat, u: string, pin: Pin, v: string, d: string,
                        c2: string, k2: nat, u2: string, pin2: Pin, v2: string, d2: string, required: bool)
    requires Distinctive(o) && Distinctive(c) && Distinctive(c2) && All(IsHex, d) && All(IsHex, d2) && o != []
    requires Rewrites(text, o, c, k, u, pin, v) && Rewrites(text, o, c2, k2, u2, pin2, v2) && k != k2
    ensures var one, two := Repinned(text, o, k, u, NewPin(pin, d), v), Repinned(text, o, k2, u2, NewPin(pin2, d2), v2);
            && Rewrite(text, o, c, d, required) == Ok(Some(one)) && Rewrite(text, o, c2, d2, required) == Ok(Some(two))
            && Rewrite(one, o, c2, d2, required) == Rewrite(two, o, c, d, required)
            && Rewrite(two, o, c, d, required).Ok? && Rewrite(two, o, c, d, required).value.Some?
  {
    hide Split, Join, Spell, NewPin, Hits, Distinctive, All, Site, Rewrite;
    var parts, part, part2 := Split(o, text), u + Spell(NewPin(pin, d)) + v, u2 + Spell(NewPin(pin2, d2)) + v2;
    var one, two := Repinned(text, o, k, u, NewPin(pin, d), v), Repinned(text, o, k2, u2, NewPin(pin2, d2), v2);
    RewriteIs(text, o, c, k, u, pin, v, d, required);
    RewriteIs(text, o, c2, k2, u2, pin2, v2, d2, required);
    RewriteFrame(text, o, c, k, u, pin, v, d);
    RewriteFrame(text, o, c2, k2, u2, pin2, v2, d2);
    HitsKept(text, o, c, k, u, pin, v, d, c2);
    HitsKept(text, o, c2, k2, u2, pin2, v2, d2, c);
    RewriteIs(one, o, c2, k2, u2, pin2, v2, d2, required);
    RewriteIs(two, o, c, k, u, pin, v, d, required);
    assert parts[k := part][k2 := part2] == parts[k2 := part2][k := part];
  }

  /** Both openers that the script uses are distinctive, and so is every contract name with a hyphen and no quote. */
  lemma PinnedNamesAreDistinctive(contract: string)
    ensures Distinctive("    EnvironmentSpec(") && Distinctive("EnvironmentProfile(")
    ensures '"' !in contract && '-' in contract ==> Distinctive(contract)
  {
    assert "    EnvironmentSpec("[4] == 'E' && "EnvironmentProfile("[0] == 'E' && !IsHex('E') && !IsSpace('E');
    assert !IsHex('-') && !IsSpace('-');
  }

  // ---------------------------------------------------------------- files that are rewritten

  /** Only block `k` names the contract. */
  ghost predicate NamedOnce(parts: seq<string>, c: string, k: nat)
  {
    0 < k < |parts| && Names(parts[k], c) && forall i :: 0 < i < |parts| && i != k ==> !Names(parts[i], c)
  }

  lemma {:induction false} HitsOnce(parts: seq<string>, c: string, k: nat)
    ensures Hits(parts, c) == [k] <==> NamedOnce(parts, c, k)
  {
    hide Names;
    if |parts| > 1 {
      var last := |parts| - 1;
      var rest := parts[..last];
      HitsOnce(rest, c, k);
      assert forall i :: 0 < i < last ==> rest[i] == parts[i];
      if Names(parts[last], c) {
        assert Hits(parts, c) == Hits(rest, c) + [last];
        if Hits(parts, c) == [k] {
          assert |Hits(rest, c)| == 0 && k == last;
          assert forall i :: 0 < i < last ==> i !in Hits(rest, c);
        }
        assert Hits(rest, c) == [] || Hits(rest, c)[0] in Hits(rest, c);
      }
    }
  }

  /** Which files are rewritten, and where: of a file made of separated blocks, exactly the one block that names the
      contract, at a pin that no other precedes in that block. */
  lemma PinnedFileIsRewritten(o: string, c: string, front: seq<string>, u: string, pin: Pin, v: string,
      back: seq<string>)
    requires o != [] && Admitted(pin) && Separated(o, front + [u + Spell(pin) + v] + back)
    ensures var parts := front + [u + Spell(pin) + v] + back;
            Rewrites(Join(o, parts), o, c, |front|, u, pin, v) <==> NamedOnce(parts, c, |front|) && FirstPin(u).None?
  {
    hide Separated, Spell, Join, Admitted, Site, Hits, Split, FirstPin;
    var parts := front + [u + Spell(pin) + v] + back;
    SplitInvertsJoin(o, parts);
    HitsOnce(parts, c, |front|);
    SiteIff(u, pin, v);
    assert NamedOnce(parts, c, |front|) ==> 0 < |front| < |parts|;
  }

  // ---------------------------------------------------------------- a rewrite that cannot be repeated

  const OPENER := "EnvironmentProfile("

  const CONTRACT := "envscaler-tools-v1"

  const NAMING := "\"envscaler-tools-v1\","

  /** A file with one block, whose only pin has the whole digest in its first piece. */
  function LongPinned(d: string): string { Join(OPENER, ["", NAMING + Spell(Pin("", d, "", "0")) + ""]) }

  /** A text with a character that another lacks does not occur in it. */
  lemma LacksCharacter(o: string, t: string, c: char)
    requires c in o && c !in t
    ensures !Contains(o, t)
  {
    forall i: nat | i + |o| <= |t|
      ensures !OccursAt(o, t, i)
    {
      assert forall x :: x in t[i..i + |o|] ==> x in t;
    }
  }

  lemma ShortHasNoPin(u: string)
    requires |u| <= |KEY|
    ensures FirstPin(u).None?
  {
    FirstPinFacts(u);
    hide FirstPin, PinFrom, Spell;
    forall j: nat | j <= |u|
      ensures PinFrom(u, j).None?
    {
      var found := PinFrom(u, j);
      if found.Some? {
        PinFromIff(u, j, found.value);
        LongerThanKey(found.value);
      }
    }
  }

  lemma OpenerAbsent()
    ensures !Contains(OPENER, NAMING + KEY + "") && !Contains(OPENER, "")
            && !Contains(OPENER, "" + OPENER[..|OPENER| - 1])
  {
    assert OPENER[11] == 'P' && 'P' !in NAMING && 'P' !in KEY;
    assert OPENER[|OPENER| - 1] == '(' && '(' !in OPENER[..|OPENER| - 1];
    hide Contains;
    LacksCharacter(OPENER, NAMING + KEY + "", 'P');
    LacksCharacter(OPENER, "", 'P');
    LacksCharacter(OPENER, "" + OPENER[..|OPENER| - 1], '(');
  }

  lemma LongSeparated(d: string)
    requires All(IsHex, d)
    ensures Separated(OPENER, ["", NAMING + Spell(Pin("", d, "", "0")) + ""])
  {
    hide *;
    var pin := Pin("", d, "", "0");
    PinnedNamesAreDistinctive(CONTRACT);
    LongShaped(d);
    OpenerAbsent();
    OccursAroundPin(OPENER, NAMING, pin, "");
    TwoSeparated(OPENER, NAMING + Spell(pin) + "");
  }

  lemma LongShaped(d: string)
    requires All(IsHex, d)
    ensures Shaped(Pin("", d, "", "0")) && OPENER == "EnvironmentProfile("
  {
  }

  lemma TwoSeparated(o: string, part: string)
    requires o != [] && !Contains(o, "" + o[..|o| - 1]) && !Contains(o, part)
    ensures Separated(o, ["", part])
  {
    hide Contains;
  }

  lemma LongNamed(rest: string)
    ensures NamedOnce(["", NAMING + rest], CONTRACT, 1)
  {
    assert "\"" + CONTRACT + "\"," == NAMING;
    assert (NAMING + rest)[0..|NAMING|] == NAMING;
    assert OccursAt(NAMING, NAMING + rest, 0);
  }

  /** For every digest there is a file that is rewritten once and then refused. */
  lemma RepeatCanFail(d: string, required: bool)
    requires All(IsHex, d) && d != []
    ensures exists text ::
              Rewrite(LongPinned(d), OPENER, CONTRACT, d, required) == Ok(Some(text)) &&
              Rewrite(text, OPENER, CONTRACT, d, required).Err?
  {
    var pin, text := Pin("", d, "", "0"), LongPinned(d);
    assert Admitted(pin) && Distinctive(OPENER) && Distinctive(CONTRACT) by { PinnedNamesAreDistinctive(CONTRACT); }
    assert |d| <= |pin.head| && |NAMING| <= |KEY| && |""| <= |KEY|;
    assert [""] + [NAMING + Spell(pin) + ""] + [] == ["", NAMING + Spell(pin) + ""];
    assert NAMING + Spell(pin) + "" == NAMING + (Spell(pin) + "");
    hide Spell, Rewrite, Split, Join, Separated, NamedOnce, FirstPin, Rewrites, Admitted, Distinctive, All, NewPin,
        Repinned;
    LongSeparated(d);
    LongNamed(Spell(pin) + "");
    ShortHasNoPin(NAMING);
    ShortHasNoPin("");
    PinnedFileIsRewritten(OPENER, CONTRACT, [""], NAMING, pin, "", []);
    InRange(text, OPENER, CONTRACT, 1, NAMING, pin, "");
    RewriteIs(text, OPENER, CONTRACT, 1, NAMING, pin, "", d, required);
    RepeatIff(text, OPENER, CONTRACT, 1, NAMING, pin, "", d, required);
  }
}

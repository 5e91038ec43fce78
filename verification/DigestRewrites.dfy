/** What a digest rewrite changes and what it leaves alone. */
module DigestRewrites {
  import opened Wrappers
  import opened Text
  import opened Splitting
  import opened DigestPins

  /** White space and hexadecimal digits where a pin has them; a piece may be empty. */
  ghost predicate Shaped(pin: Pin)
  {
    All(IsSpace, pin.indent) && All(IsSpace, pin.gap) && All(IsHex, pin.head) && All(IsHex, pin.tail)
  }

  /** No quote, and neither hexadecimal digits only nor white space only: so are openers and contract names. */
  ghost predicate Distinctive(t: string) { '"' !in t && !All(IsHex, t) && !All(IsSpace, t) }

  lemma NotAmong(p: char -> bool, o: string, t: string)
    requires All(p, t)
    ensures Contains(o, t) ==> All(p, o)
  {
    if Contains(o, t) {
      var i :| 0 <= i <= |t| && OccursAt(o, t, i);
      CharsAmong(p, o, t, i);
    }
  }

  lemma CharsAmong(p: char -> bool, o: string, t: string, i: nat)
    requires All(p, t) && OccursAt(o, t, i)
    ensures All(p, o)
  {
    assert forall c :: c in t[i..i + |o|] ==> c in t;
  }

  // ---------------------------------------------------------------- openers

  /** A distinctive text occurs around a pin only before its first quote or after its last. */
  lemma OccursAroundPin(o: string, u: string, pin: Pin, v: string)
    requires Distinctive(o) && Shaped(pin)
    ensures Contains(o, u + Spell(pin) + v) <==> Contains(o, u + KEY + pin.indent) || Contains(o, v)
  {
    var line := "\n" + pin.gap;
    var t3 := pin.tail + "\"" + v;
    var t2 := line + "\"" + t3;
    var t1 := pin.head + "\"" + t2;
    assert u + Spell(pin) + v == (u + KEY + pin.indent) + "\"" + t1;
    NotAmong(IsHex, o, pin.head);
    NotAmong(IsHex, o, pin.tail);
    NotAmong(IsSpace, o, line);
    hide *;
    QuoteSeparates(o, u + KEY + pin.indent, t1);
    QuoteSeparates(o, pin.head, t2);
    QuoteSeparates(o, line, t3);
    QuoteSeparates(o, pin.tail, v);
  }

  /** Rewriting a pin neither makes nor breaks an opener. */
  lemma OpenerKept(o: string, u: string, pin: Pin, pin': Pin, v: string, w: string)
    requires Distinctive(o) && Shaped(pin) && Shaped(pin') && pin'.indent == pin.indent
    ensures Contains(o, u + Spell(pin') + v + w) == Contains(o, u + Spell(pin) + v + w)
  {
    hide *;
    assert u + Spell(pin') + v + w == u + Spell(pin') + (v + w);
    assert u + Spell(pin) + v + w == u + Spell(pin) + (v + w);
    OccursAroundPin(o, u, pin, v + w);
    OccursAroundPin(o, u, pin', v + w);
  }

  // ---------------------------------------------------------------- contract names

  /** A quoted name does not occur across a quoted text that differs from it and starts with no comma. */
  lemma NameSkips(c: string, a: string, m: string, b: string)
    requires '"' !in c && '"' !in m && m != c && (m == [] || m[0] != ',')
    ensures Names(a + "\"" + m + "\"" + b, c) <==> Names(a, c) || Names("\"" + b, c)
  {
    var t := a + "\"" + m + "\"" + b;
    assert t == [] + a + ("\"" + m + "\"" + b) && t == (a + "\"" + m) + ("\"" + b) + [];
    if Names(t, c) {
      NameOnOneSide(c, a, m, b);
    }
    hide Contains;
    if Names(a, c) {
      ContainsInside("\"" + c + "\",", [], a, "\"" + m + "\"" + b);
    }
    if Names("\"" + b, c) {
      ContainsInside("\"" + c + "\",", a + "\"" + m, "\"" + b, []);
    }
  }

  lemma NameOnOneSide(c: string, a: string, m: string, b: string)
    requires '"' !in c && '"' !in m && m != c && (m == [] || m[0] != ',')
    requires Names(a + "\"" + m + "\"" + b, c)
    ensures Names(a, c) || Names("\"" + b, c)
  {
    var n, t := "\"" + c + "\",", a + "\"" + m + "\"" + b;
    assert t == [] + a + ("\"" + m + "\"" + b) && t == (a + "\"" + m) + ("\"" + b) + [];
    var i :| 0 <= i <= |t| && OccursAt(n, t, i);
    NameAt(c, a, m, b, i);
    hide OccursAt;
    if i + |n| <= |a| {
      OccursInside(n, [], a, "\"" + m + "\"" + b, i);
      assert OccursAt(n, a, i);
    } else {
      var j := i - |a| - 1 - |m|;
      OccursInside(n, a + "\"" + m, "\"" + b, [], j);
      assert OccursAt(n, "\"" + b, j);
    }
  }

  lemma NameAt(c: string, a: string, m: string, b: string, i: nat)
    requires '"' !in c && '"' !in m && m != c && (m == [] || m[0] != ',')
    requires OccursAt("\"" + c + "\",", a + "\"" + m + "\"" + b, i)
    ensures i + |c| + 3 <= |a| || |a| + 1 + |m| <= i
  {
    var t := a + "\"" + m + "\"" + b;
    NeedleChars(c, t, i);
    hide OccursAt;
    assert t[|a|] == '"' && t[|a| + 1 + |m|] == '"';
    assert m == t[|a| + 1..|a| + 1 + |m|];
    assert forall k :: |a| < k < |a| + 1 + |m| ==> t[k] != '"' by {
      assert forall k :: |a| < k < |a| + 1 + |m| ==> t[k] == m[k - |a| - 1];
    }
  }

  lemma NeedleChars(c: string, t: string, i: nat)
    requires '"' !in c && OccursAt("\"" + c + "\",", t, i)
    ensures t[i] == '"' && t[i + 1 + |c|] == '"' && t[i + |c| + 2] == ',' && t[i + 1..i + 1 + |c|] == c
    ensures forall k :: i < k < i + 1 + |c| ==> t[k] != '"'
  {
    var n := "\"" + c + "\",";
    assert t[i..i + |n|] == n;
    assert n[0] == '"' && n[1 + |c|] == '"' && n[|c| + 2] == ',';
    assert forall k :: 0 <= k < |c| ==> n[1 + k] == c[k];
    assert forall k :: 0 <= k < |n| ==> t[i + k] == n[k];
    assert t[i + 1..i + 1 + |c|] == n[1..1 + |c|];
    assert forall k :: i < k < i + 1 + |c| ==> t[k] == n[k - i] && n[k - i] in c;
  }

  lemma NamesAroundPin(c: string, u: string, pin: Pin, v: string)
    requires Distinctive(c) && Shaped(pin)
    ensures Names(u + Spell(pin) + v, c) <==> Names(u + KEY + pin.indent, c) || Names("\"" + v, c)
  {
    var line := "\n" + pin.gap;
    var t3 := pin.tail + "\"" + v;
    var t2 := line + "\"" + t3;
    assert u + Spell(pin) + v == (u + KEY + pin.indent) + "\"" + pin.head + "\"" + t2;
    assert All(IsSpace, line) && line[0] == '\n';
    NoQuotes(pin.head, line, pin.tail);
    assert !Names([], c);
    hide Spell, Names, All;
    NameSkips(c, u + KEY + pin.indent, pin.head, t2);
    assert "\"" + t2 == [] + "\"" + line + "\"" + t3;
    NameSkips(c, [], line, t3);
    assert "\"" + t3 == [] + "\"" + pin.tail + "\"" + v;
    NameSkips(c, [], pin.tail, v);
  }

  lemma NoQuotes(head: string, line: string, tail: string)
    requires All(IsHex, head) && All(IsSpace, line) && All(IsHex, tail)
    ensures '"' !in head && '"' !in line && '"' !in tail
    ensures (head == [] || head[0] != ',') && (tail == [] || tail[0] != ',')
  {
    assert !IsHex('"') && !IsSpace('"') && !IsHex(',');
    assert (head == [] || head[0] in head) && (tail == [] || tail[0] in tail);
  }

  lemma NamesKept(c: string, u: string, pin: Pin, pin': Pin, v: string)
    requires Distinctive(c) && Shaped(pin) && Shaped(pin') && pin'.indent == pin.indent
    ensures Names(u + Spell(pin') + v, c) == Names(u + Spell(pin) + v, c)
  {
    hide *;
    NamesAroundPin(c, u, pin, v);
    NamesAroundPin(c, u, pin', v);
  }

  // ---------------------------------------------------------------- the first pin of a rewritten block

  /** A pin has one opening parenthesis, so two pins do not overlap. */
  lemma OneParenthesis(pin: Pin, k: nat)
    requires Shaped(pin) && k < |Spell(pin)|
    ensures Spell(pin)[k] == '(' <==> k == |KEY| - 2
  {
    var rest := pin.indent + "\"" + pin.head + "\"" + ("\n" + pin.gap) + "\"" + pin.tail + "\"";
    assert Spell(pin) == KEY + rest;
    assert !IsSpace('(') && !IsHex('(');
    assert '(' !in rest by {
      assert '(' !in pin.indent && '(' !in pin.head && '(' !in pin.gap && '(' !in pin.tail;
    }
    hide Spell, All;
    assert k < |KEY| ==> (KEY[k] == '(' <==> k == |KEY| - 2);
    assert k >= |KEY| ==> (KEY + rest)[k] in rest;
  }

  lemma PinsApart(t: string, i: nat, pin: Pin, j: nat, other: Pin)
    requires Shaped(pin) && Shaped(other) && OccursAt(Spell(pin), t, i) && OccursAt(Spell(other), t, j) && j < i
    ensures j + |Spell(other)| <= i + |KEY| - 2
  {
    var k := |KEY| - 2;
    assert |Spell(pin)| >= |KEY|;
    OneParenthesis(pin, k);
    hide Spell, Shaped;
    assert t[i + k] == t[i..i + |Spell(pin)|][k];
    if i + k < j + |Spell(other)| {
      assert t[i + k] == t[j..j + |Spell(other)|][i + k - j];
      OneParenthesis(other, i + k - j);
    }
  }

  lemma FirstPinIs(t: string, i: nat, pin: Pin)
    requires PinAt(t, i, pin) && forall j: nat :: j < i ==> PinFrom(t, j).None?
    ensures FirstPin(t) == Some((i, pin))
  {
    PinFromIff(t, i, pin);
    assert i <= |t|;
    hide PinAt, PinFrom;
    var at := (j: nat) => PinFrom(t, j);
    assert at(i) == Some(pin);
    var r := FirstFrom(at, 0, |t|);
    assert r.Some? && r.value.0 == i;
  }

  lemma FirstPinFacts(t: string)
    ensures FirstPin(t).Some? ==> forall j: nat :: j < FirstPin(t).value.0 ==> PinFrom(t, j).None?
    ensures FirstPin(t).None? <==> forall j: nat :: j <= |t| ==> PinFrom(t, j).None?
  {
    hide PinFrom, PinAt;
    var at := (j: nat) => PinFrom(t, j);
    var r := FirstFrom(at, 0, |t|);
    assert forall j: nat :: at(j) == PinFrom(t, j);
  }

  lemma NewPinShaped(pin: Pin, digest: string)
    requires Admitted(pin) && All(IsHex, digest)
    ensures Shaped(pin) && Shaped(NewPin(pin, digest)) && pin.head != []
            && (digest != [] ==> NewPin(pin, digest).head != [])
    ensures Admitted(NewPin(pin, digest)) <==> |pin.head| < |digest|
    ensures NewPin(pin, digest).head + NewPin(pin, digest).tail == digest
  {
    assert forall c :: c in NewPin(pin, digest).head ==> c in digest;
    assert forall c :: c in NewPin(pin, digest).tail ==> c in digest;
  }

  lemma AfterKey(pin: Pin) returns (rest: string)
    ensures Spell(pin) == KEY + rest
  {
    rest := Spell(pin)[|KEY|..];
  }

  /** A pin that stands before another ends before that one's key does. */
  lemma PinBefore(u: string, pin: Pin, v: string, j: nat, other: Pin)
    requires Shaped(pin) && Shaped(other) && OccursAt(Spell(other), u + Spell(pin) + v, j) && j < |u|
    ensures OccursAt(Spell(other), u + KEY, j)
  {
    var t := u + Spell(pin) + v;
    var rest := AfterKey(pin);
    hide Spell, Shaped;
    assert OccursAt(Spell(pin), t, |u|);
    PinsApart(t, |u|, pin, j, other);
    var front := u + KEY;
    assert t == [] + front + (rest + v);
    OccursInside(Spell(other), [], front, rest + v, j);
  }

  lemma StandsBefore(m: string, u: string, pin: Pin, v: string, j: nat)
    requires OccursAt(m, u + KEY, j)
    ensures OccursAt(m, u + Spell(pin) + v, j)
  {
    var rest := Spell(pin)[|KEY|..];
    assert Spell(pin) == KEY + rest;
    hide Spell;
    assert u + Spell(pin) + v == [] + (u + KEY) + (rest + v);
    OccursInside(m, [], u + KEY, rest + v, j);
  }

  /** Before a rewritten pin nothing changes: no pin appears there. */
  lemma NoPinBefore(u: string, pin: Pin, pin': Pin, v: string, j: nat)
    requires Shaped(pin') && j < |u| && PinFrom(u + Spell(pin) + v, j).None?
    ensures PinFrom(u + Spell(pin') + v, j).None?
  {
    hide PinFrom, Spell;
    var found := PinFrom(u + Spell(pin') + v, j);
    if found.Some? {
      PinFromIff(u + Spell(pin') + v, j, found.value);
      PinBefore(u, pin', v, j, found.value);
      StandsBefore(Spell(found.value), u, pin, v, j);
      PinFromIff(u + Spell(pin) + v, j, found.value);
    }
  }

  /** A pin that starts after another's start stands wholly after it. */
  lemma PinAfter(u: string, pin: Pin, v: string, j: nat, other: Pin)
    requires Shaped(pin) && OccursAt(Spell(other), u + Spell(pin) + v, j) && |u| < j
    ensures j >= |u + Spell(pin)| && OccursAt(Spell(other), v, j - |u + Spell(pin)|)
  {
    var m, t := Spell(pin), u + Spell(pin) + v;
    assert m[|m| - 1] == '"' && |Spell(other)| >= |KEY|;
    KeyStands(other, t, j);
    hide Spell, Shaped;
    var e := |u + m|;
    if j < e {
      KeyInside(u, m, v, j);
      OneParenthesis(pin, j + |KEY| - 2 - |u|);
    } else {
      assert t == (u + m) + v + [];
      OccursInside(Spell(other), u + m, v, [], j - e);
    }
  }

  /** A key that starts in a text ending with a quote lies in it. */
  lemma KeyInside(u: string, m: string, v: string, j: nat)
    requires |u| < j < |u + m| && m[|m| - 1] == '"' && OccursAt(KEY, u + m + v, j)
    ensures |u| <= j + |KEY| - 2 < |u + m| && m[j + |KEY| - 2 - |u|] == '('
  {
    assert '"' !in KEY && KEY[|KEY| - 2] == '(';
    TextInside(KEY, u, m, v, j);
  }

  lemma TextInside(key: string, u: string, m: string, v: string, j: nat)
    requires |u| < j < |u + m| && m[|m| - 1] == '"' && '"' !in key && |key| >= 2 && OccursAt(key, u + m + v, j)
    ensures |u| <= j + |key| - 2 < |u + m| && m[j + |key| - 2 - |u|] == key[|key| - 2]
  {
    var t, e := u + m + v, |u + m|;
    assert t[e - 1] == '"';
    OccurringChars(key, t, j);
    var k := j + |key| - 2;
    assert j + |key| < e;
    assert t[k] == t[j..j + |key|][|key| - 2];
    assert t[k] == m[k - |u|];
  }

  lemma KeyStands(pin: Pin, t: string, j: nat)
    requires OccursAt(Spell(pin), t, j)
    ensures OccursAt(KEY, t, j)
  {
    assert t[j..j + |Spell(pin)|][..|KEY|] == KEY;
  }

  /** A pin whose second piece is empty is none. */
  lemma EmptyTailHides(pin: Pin, rest: string)
    requires Shaped(pin) && pin.tail == []
    ensures MatchPin(Spell(pin) + rest).None?
  {
    SpellInPieces(pin);
    hide Spell, MatchPiece, SpellPiece;
    var t, first, second := Spell(pin) + rest, SpellPiece(pin.indent, pin.head), SpellPiece(pin.gap, []);
    var front := KEY + first + "\n";
    assert t[|KEY|..] == first + ("\n" + second + rest);
    if pin.head == [] {
      EmptyPieceHides(pin.indent, "\n" + second + rest);
    } else {
      PieceMatches(pin.indent, pin.head, "\n" + second + rest);
      assert t[|front|..] == second + rest;
      EmptyPieceHides(pin.gap, rest);
    }
  }

  lemma TailHidden(u: string, pin: Pin, v: string)
    requires Shaped(pin) && pin.tail == []
    ensures PinFrom(u + Spell(pin) + v, |u|).None?
  {
    hide Spell, MatchPin, Shaped;
    EmptyTailHides(pin, v);
    assert u + Spell(pin) + v == u + (Spell(pin) + v);
    assert (u + (Spell(pin) + v))[|u|..] == Spell(pin) + v;
  }

  lemma EmptyPieceHides(space: string, rest: string)
    requires All(IsSpace, space)
    ensures MatchPiece(SpellPiece(space, []) + rest).None?
  {
    var t := SpellPiece(space, []) + rest;
    assert t == space + ("\"\"" + rest);
    RunIs(IsSpace, space, "\"\"" + rest);
    assert t[|space|..] == "\"\"" + rest;
    assert ("\"\"" + rest)[1..] == "\"" + rest;
  }

  // ---------------------------------------------------------------- a rewritten block

  /** `u`, the pin and `v` are the block as the rewriter sees it. */
  ghost predicate Site(block: string, u: string, pin: Pin, v: string)
  {
    Admitted(pin) && block == u + Spell(pin) + v && FirstPin(block) == Some((|u|, pin))
  }

  lemma CutOut(t: string, i: nat, m: string) returns (u: string, v: string)
    requires OccursAt(m, t, i)
    ensures t == u + m + v && |u| == i
  {
    u, v := t[..i], t[i + |m|..];
    assert t == u + t[i..i + |m|] + v;
  }

  lemma HasSite(block: string) returns (u: string, pin: Pin, v: string)
    requires FirstPin(block).Some?
    ensures Site(block, u, pin, v)
  {
    hide Spell, Admitted, FirstPin;
    var i := FirstPin(block).value.0;
    pin := FirstPin(block).value.1;
    hide OccursAt;
    u, v := CutOut(block, i, Spell(pin));
  }

  /** A rewrite replaces the pin by the new one and nothing else. */
  lemma PatchedSite(block: string, u: string, pin: Pin, v: string, digest: string)
    requires Site(block, u, pin, v)
    ensures Patched(block, digest) == Some(u + Spell(NewPin(pin, digest)) + v)
  {
    hide Spell, Admitted, FirstPin, NewPin;
    assert OccursAt(Spell(pin), block, |u|);
    assert block[..|u|] == u && block[|u| + |Spell(pin)|..] == v;
  }

  /** The rewritten block's first pin spells the digest in two pieces, and rewriting it again changes nothing. */
  lemma PatchedAgain(block: string, u: string, pin: Pin, v: string, digest: string)
    requires Site(block, u, pin, v) && All(IsHex, digest) && |pin.head| < |digest|
    ensures var pin', new' := NewPin(pin, digest), u + Spell(NewPin(pin, digest)) + v;
            Site(new', u, pin', v) && pin'.head + pin'.tail == digest && Patched(new', digest) == Some(new')
  {
    hide PinFrom, Spell, Patched, FirstPin, Shaped, Admitted;
    FirstPinFacts(block);
    var pin' := NewPin(pin, digest);
    var new' := u + Spell(pin') + v;
    NewPinShaped(pin, digest);
    assert NewPin(pin', digest) == pin';
    hide NewPin;
    forall j: nat | j < |u|
      ensures PinFrom(new', j).None?
    {
      NoPinBefore(u, pin, pin', v, j);
    }
    assert OccursAt(Spell(pin'), new', |u|);
    FirstPinIs(new', |u|, pin');
    PatchedSite(new', u, pin', v, digest);
  }

  /** The pin already spells the digest the way a rewrite would. */
  predicate AlreadyPins(pin: Pin, digest: string) { pin.head + pin.tail == digest && pin.gap == pin.indent }

  lemma RewritingFixes(pin: Pin, digest: string)
    requires Admitted(pin) && All(IsHex, digest)
    ensures NewPin(pin, digest) == pin <==> AlreadyPins(pin, digest)
    ensures Spell(NewPin(pin, digest)) == Spell(pin) <==> AlreadyPins(pin, digest)
  {
    hide All, MatchPin, Spell;
    var pin' := NewPin(pin, digest);
    NewPinShaped(pin, digest);
    assert NewPin(pin, digest) == pin <==> AlreadyPins(pin, digest);
    MatchPinIff(Spell(pin), pin);
    MatchPinIff(Spell(pin), pin');
    if pin'.tail == [] {
      EmptyTailHides(pin', []);
      assert Spell(pin') + [] == Spell(pin');
    }
  }

  /** When the digest is no longer than the pin's first piece, the rewritten pin is no pin any more. */
  lemma HiddenFront(u: string, pin: Pin, pin': Pin, v: string, j: nat)
    requires Shaped(pin') && pin'.tail == [] && j < |u + Spell(pin')|
    requires forall i: nat :: i < |u| ==> PinFrom(u + Spell(pin) + v, i).None?
    ensures PinFrom(u + Spell(pin') + v, j).None?
  {
    hide PinFrom, Spell;
    if j < |u| {
      NoPinBefore(u, pin, pin', v, j);
    } else if j == |u| {
      TailHidden(u, pin', v);
    } else {
      var found := PinFrom(u + Spell(pin') + v, j);
      if found.Some? {
        PinFromIff(u + Spell(pin') + v, j, found.value);
        PinAfter(u, pin', v, j, found.value);
      }
    }
  }

  lemma PinsOfRest(u: string, pin: Pin, v: string, j: nat)
    requires Shaped(pin)
    ensures PinFrom(u + Spell(pin) + v, |u + Spell(pin)| + j) == PinFrom(v, j)
  {
    assert (u + Spell(pin) + v)[|u + Spell(pin)|..] == v;
    hide Spell, MatchPin;
    var front := u + Spell(pin);
    if j <= |v| {
      assert (front + v)[|front| + j..] == v[j..];
    }
  }

  /** Then the next rewrite works on the text after it: on the first pin there, or on none. */
  lemma HiddenThenNext(block: string, u: string, pin: Pin, v: string, digest: string)
    requires Site(block, u, pin, v) && All(IsHex, digest) && |digest| <= |pin.head|
    ensures var front := u + Spell(NewPin(pin, digest));
            && (FirstPin(v).None? ==> FirstPin(front + v).None?)
            && forall u2, pin2, v2 :: Site(v, u2, pin2, v2) ==> Site(front + v, front + u2, pin2, v2)
  {
    hide *;
    var front := u + Spell(NewPin(pin, digest));
    HiddenPins(block, u, pin, v, digest);
    if FirstPin(v).None? {
      FirstPinFacts(v);
      NonePast(front, v);
    }
    forall u2, pin2, v2 | Site(v, u2, pin2, v2)
      ensures Site(front + v, front + u2, pin2, v2)
    {
      FirstPast(front, v, u2, pin2, v2);
    }
  }

  lemma HiddenPins(block: string, u: string, pin: Pin, v: string, digest: string)
    requires Site(block, u, pin, v) && All(IsHex, digest) && |digest| <= |pin.head|
    ensures var front := u + Spell(NewPin(pin, digest));
            && (forall j: nat :: j < |front| ==> PinFrom(front + v, j).None?)
            && forall j: nat :: PinFrom(front + v, |front| + j) == PinFrom(v, j)
  {
    hide *;
    var pin' := NewPin(pin, digest);
    SiteParts(block, u, pin, v);
    FirstPinFacts(block);
    NewPinShaped(pin, digest);
    TailEmpty(pin, digest);
    forall j: nat | j < |u + Spell(pin')|
      ensures PinFrom(u + Spell(pin') + v, j).None?
    {
      HiddenFront(u, pin, pin', v, j);
    }
    forall j: nat
      ensures PinFrom(u + Spell(pin') + v, |u + Spell(pin')| + j) == PinFrom(v, j)
    {
      PinsOfRest(u, pin', v, j);
    }
  }

  lemma TailEmpty(pin: Pin, digest: string)
    requires |digest| <= |pin.head|
    ensures NewPin(pin, digest).tail == []
  {
  }

  lemma SiteParts(block: string, u: string, pin: Pin, v: string)
    requires Site(block, u, pin, v)
    ensures Admitted(pin) && block == u + Spell(pin) + v && FirstPin(block) == Some((|u|, pin))
  {
  }

  lemma NonePast(front: string, v: string)
    requires forall j: nat :: j < |front| ==> PinFrom(front + v, j).None?
    requires forall j: nat :: PinFrom(front + v, |front| + j) == PinFrom(v, j)
    requires forall j: nat :: j <= |v| ==> PinFrom(v, j).None?
    ensures FirstPin(front + v).None?
  {
    hide *;
    FirstPinFacts(front + v);
    forall j: nat | j <= |front + v|
      ensures PinFrom(front + v, j).None?
    {
      if j >= |front| {
        assert PinFrom(front + v, |front| + (j - |front|)) == PinFrom(v, j - |front|);
      }
    }
  }

  lemma FirstPast(front: string, v: string, u2: string, pin2: Pin, v2: string)
    requires forall j: nat :: j < |front| ==> PinFrom(front + v, j).None?
    requires forall j: nat :: PinFrom(front + v, |front| + j) == PinFrom(v, j)
    requires Site(v, u2, pin2, v2)
    ensures Site(front + v, front + u2, pin2, v2)
  {
    hide Spell, Admitted, FirstPin, PinFrom;
    FirstPinFacts(v);
    var t := front + v;
    assert t == front + u2 + Spell(pin2) + v2;
    assert OccursAt(Spell(pin2), t, |front + u2|);
    forall j: nat | j < |front + u2|
      ensures PinFrom(t, j).None?
    {
      if j >= |front| {
        assert PinFrom(t, |front| + (j - |front|)) == PinFrom(v, j - |front|);
      }
    }
    FirstPinIs(t, |front + u2|, pin2);
  }

  lemma NoPinNoPatch(block: string, digest: string)
    requires FirstPin(block).None?
    ensures Patched(block, digest).None?
  {
  }

  // ---------------------------------------------------------------- where a pin is the first one

  /** A pin is where the rewriter works exactly when the text before it holds none. */
  lemma SiteIff(u: string, pin: Pin, v: string)
    requires Admitted(pin)
    ensures Site(u + Spell(pin) + v, u, pin, v) <==> FirstPin(u).None?
  {
    var t := u + Spell(pin) + v;
    assert Shaped(pin);
    hide Spell, Admitted, FirstPin, PinFrom, Shaped;
    FirstPinFacts(t);
    FirstPinFacts(u);
    assert OccursAt(Spell(pin), t, |u|);
    forall j: nat | j <= |u|
      ensures PinFrom(u, j).Some? <==> j < |u| && PinFrom(t, j).Some?
    {
      PinsOfFront(u, pin, v, j);
    }
    if FirstPin(u).None? {
      FirstPinIs(t, |u|, pin);
    }
  }

  lemma PinsOfFront(u: string, pin: Pin, v: string, j: nat)
    requires Shaped(pin) && j <= |u|
    ensures PinFrom(u, j).Some? <==> j < |u| && PinFrom(u + Spell(pin) + v, j).Some?
  {
    hide PinFrom, Spell, Shaped;
    var t := u + Spell(pin) + v;
    var found, before := PinFrom(t, j), PinFrom(u, j);
    if j < |u| && found.Some? {
      PinFromIff(t, j, found.value);
      AdmittedIsShaped(found.value);
      PinBefore(u, pin, v, j, found.value);
      EndsBeforeKey(found.value, u, j);
      PinFromIff(u, j, found.value);
    }
    if before.Some? {
      PinFromIff(u, j, before.value);
      LongerThanKey(before.value);
      assert t == [] + u + (Spell(pin) + v);
      OccursInside(Spell(before.value), [], u, Spell(pin) + v, j);
      PinFromIff(t, j, before.value);
    }
  }

  lemma AdmittedIsShaped(pin: Pin)
    requires Admitted(pin)
    ensures Shaped(pin)
  {
  }

  lemma LongerThanKey(pin: Pin)
    ensures |Spell(pin)| > |KEY| && Spell(pin)[|Spell(pin)| - 1] == '"'
  {
  }

  /** A pin ends in a quote, which no key holds. */
  lemma EndsBeforeKey(pin: Pin, u: string, j: nat)
    requires OccursAt(Spell(pin), u + KEY, j)
    ensures OccursAt(Spell(pin), u, j)
  {
    LongerThanKey(pin);
    hide Spell;
    var m, t := Spell(pin), u + KEY;
    assert '"' !in KEY;
    assert t[j + |m| - 1] == t[j..j + |m|][|m| - 1] == '"';
    assert forall i :: |u| <= i < |t| ==> t[i] in KEY;
    assert t == [] + u + KEY;
    OccursInside(m, [], u, KEY, j);
  }
}

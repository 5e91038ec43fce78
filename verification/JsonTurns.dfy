/** Turns that carry printed JSON objects, and the actions `scripts/eval_envscaler_band.py` reads off them. */
module JsonTurns {
  import opened Wrappers
  import opened Text
  import opened JsonSpans

  /** No quote and no brace. */
  predicate Plain(t: string) { '"' !in t && '{' !in t && '}' !in t }

  /** The spelling of a number, `NaN` and `Infinity` included. */
  type Numeral = t: string | Plain(t) witness "0"

  /** The members of an object may repeat a key; a reader keeps the last. */
  datatype Member = Member(key: string, value: Json)

  datatype Json =
    | Null
    | Bool(truth: bool)
    | Number(text: Numeral)
    | Str(chars: string)
    | Arr(items: seq<Json>)
    | Obj(members: seq<Member>)

  /** A printer's separators, and whether it escapes everything outside printable ASCII. */
  datatype Style = Style(ascii: bool, comma: Numeral, colon: Numeral)

  function HexDigit(d: nat): char
    requires d < 16
  {
    "0123456789abcdef"[d]
  }

  function Unicode(unit: nat): string
    requires unit < 0x10000
  {
    "\\u" + [HexDigit(unit / 0x1000), HexDigit(unit / 0x100 % 16), HexDigit(unit / 16 % 16), HexDigit(unit % 16)]
  }

  /** One character inside a string literal, as `json.dumps` writes it. */
  function Escape(ascii: bool, c: char): string
  {
    if c == '"' then "\\\""
    else if c == '\\' then "\\\\"
    else if c == '\n' then "\\n"
    else if c == '\r' then "\\r"
    else if c == '\t' then "\\t"
    else if c == '\U{8}' then "\\b"
    else if c == '\U{c}' then "\\f"
    else if c < ' ' then Unicode(c as int)
    else if ascii && c > '~' then
      if c as int < 0x10000 then Unicode(c as int)
      else Unicode(0xd800 + (c as int - 0x10000) / 0x400) + Unicode(0xdc00 + (c as int - 0x10000) % 0x400)
    else [c]
  }

  function Escaped(ascii: bool, s: string): string
  {
    if s == [] then [] else Escape(ascii, s[0]) + Escaped(ascii, s[1..])
  }

  function Literal(style: Style, s: string): string { "\"" + Escaped(style.ascii, s) + "\"" }

  /** A standard JSON printer. */
  function Print(style: Style, v: Json): string
    decreases v
  {
    match v
    case Null => "null"
    case Bool(b) => if b then "true" else "false"
    case Number(text) => text
    case Str(s) => Literal(style, s)
    case Arr(items) => "[" + PrintItems(style, items) + "]"
    case Obj(members) => "{" + PrintMembers(style, members) + "}"
  }

  function PrintItems(style: Style, items: seq<Json>): string
    decreases items
  {
    if items == [] then ""
    else Print(style, items[0]) + if |items| == 1 then "" else style.comma + PrintItems(style, items[1..])
  }

  function PrintMembers(style: Style, members: seq<Member>): string
    decreases members
  {
    if members == [] then "" else
    Literal(style, members[0].key) + style.colon + Print(style, members[0].value) +
    if |members| == 1 then "" else style.comma + PrintMembers(style, members[1..])
  }

  // ---------------------------------------------------------------- what a piece of text does to the scanner

  /** Wherever it stands, `t` takes the scanner from `s` to `s'` and completes no span. */
  ghost predicate Takes(s: State, t: string, s': State)
  {
    forall at: nat :: After(s, at, t) == s' && Spans(s, at, t) == []
  }

  lemma TakesBoth(s: State, a: string, s': State, b: string, s'': State)
    requires Takes(s, a, s') && Takes(s', b, s'')
    ensures Takes(s, a + b, s'')
  {
    hide After, Spans;
    forall at: nat
      ensures After(s, at, a + b) == s'' && Spans(s, at, a + b) == []
    {
      ScanConcat(s, at, a, b);
    }
  }

  lemma TakesNothing(s: State)
    ensures Takes(s, [], s)
  {
  }

  lemma TakesOne(s: State, c: char)
    requires !Completes(s, c) && (s.inString || c != '{' || s.depth > 0)
    ensures Takes(s, [c], Step(s, 0, c))
  {
    forall at: nat
      ensures After(s, at, [c]) == Step(s, 0, c) && Spans(s, at, [c]) == []
    {
      assert [c][..0] == [];
    }
  }

  predicate Unquoted(s: State) { !s.inString && !s.escaped }

  lemma {:induction false} PlainTakes(s: State, t: string)
    requires Unquoted(s) && '"' !in t && '{' !in t && ('}' !in t || s == OUTSIDE)
    ensures Takes(s, t, s)
  {
    if t == [] {
      TakesNothing(s);
    } else {
      var c, rest := t[0], t[1..];
      assert t == [c] + rest;
      TakesOne(s, c);
      PlainTakes(s, rest);
      TakesBoth(s, [c], s, rest, s);
    }
  }

  predicate InLiteral(s: State) { s.inString && !s.escaped }

  /** Inside a literal, an escape sequence changes nothing. */
  lemma EscapedCharTakes(s: State, c: char, rest: string)
    requires InLiteral(s) && '"' !in rest && '\\' !in rest
    ensures Takes(s, ['\\', c] + rest, s)
  {
    TakesOne(s, '\\');
    TakesOne(s.(escaped := true), c);
    TakesBoth(s, ['\\'], s.(escaped := true), [c], s);
    assert ['\\'] + [c] == ['\\', c];
    LetterTakes(s, rest);
    TakesBoth(s, ['\\', c], s, rest, s);
  }

  lemma {:induction false} LetterTakes(s: State, t: string)
    requires InLiteral(s) && '"' !in t && '\\' !in t
    ensures Takes(s, t, s)
  {
    if t == [] {
      TakesNothing(s);
    } else {
      assert t == [t[0]] + t[1..];
      TakesOne(s, t[0]);
      LetterTakes(s, t[1..]);
      TakesBoth(s, [t[0]], s, t[1..], s);
    }
  }

  lemma UnicodeTakes(s: State, unit: nat)
    requires InLiteral(s) && unit < 0x10000
    ensures Takes(s, Unicode(unit), s)
  {
    var rest := Unicode(unit)[2..];
    assert forall d: nat :: d < 16 ==> HexDigit(d) != '"' && HexDigit(d) != '\\';
    EscapedCharTakes(s, 'u', rest);
    assert Unicode(unit) == ['\\', 'u'] + rest;
  }

  lemma EscapeTakes(s: State, ascii: bool, c: char)
    requires InLiteral(s)
    ensures Takes(s, Escape(ascii, c), s)
  {
    hide Takes;
    var e := Escape(ascii, c);
    if e == [c] {
      LetterTakes(s, e);
    } else if |e| == 2 {
      EscapedCharTakes(s, e[1], []);
      assert e == ['\\', e[1]] + [];
    } else if c as int < 0x10000 {
      UnicodeTakes(s, c as int);
    } else {
      var high, low := 0xd800 + (c as int - 0x10000) / 0x400, 0xdc00 + (c as int - 0x10000) % 0x400;
      UnicodeTakes(s, high);
      UnicodeTakes(s, low);
      TakesBoth(s, Unicode(high), s, Unicode(low), s);
    }
  }

  lemma {:induction false} EscapedTakes(s: State, ascii: bool, t: string)
    requires InLiteral(s)
    ensures Takes(s, Escaped(ascii, t), s)
  {
    if t == [] {
      TakesNothing(s);
    } else {
      EscapeTakes(s, ascii, t[0]);
      EscapedTakes(s, ascii, t[1..]);
      TakesBoth(s, Escape(ascii, t[0]), s, Escaped(ascii, t[1..]), s);
    }
  }

  /** A printed string literal changes nothing, whatever it spells. */
  lemma LiteralTakes(s: State, style: Style, t: string)
    requires Unquoted(s)
    ensures Takes(s, Literal(style, t), s)
  {
    hide Takes;
    var quoted, body := s.(inString := true), Escaped(style.ascii, t);
    TakesOne(s, '"');
    EscapedTakes(quoted, style.ascii, t);
    TakesOne(quoted, '"');
    TakesBoth(s, "\"", quoted, body, quoted);
    TakesBoth(s, "\"" + body, quoted, "\"", s);
  }

  // ---------------------------------------------------------------- printed values

  /** Inside an open span, a printed value changes nothing and completes nothing. */
  lemma {:induction false} PrintTakes(s: State, style: Style, v: Json)
    requires Unquoted(s) && s.depth > 0
    ensures Takes(s, Print(style, v), s)
    decreases v, 1
  {
    hide Takes;
    match v
    case Arr(items) => ItemsTake(s, style, items);
    case Obj(members) =>
      var deeper := s.(depth := s.depth + 1);
      MembersTake(deeper, style, members);
      TakesOne(s, '{');
      TakesOne(deeper, '}');
      TakesBoth(s, "{", deeper, PrintMembers(style, members), deeper);
      TakesBoth(s, "{" + PrintMembers(style, members), deeper, "}", s);
    case Str(t) => LiteralTakes(s, style, t);
    case _ => PlainTakes(s, Print(style, v));
  }

  lemma {:induction false} ItemsTake(s: State, style: Style, items: seq<Json>)
    requires Unquoted(s) && s.depth > 0
    ensures Takes(s, PrintItems(style, items), s)
    ensures Takes(s, "[" + PrintItems(style, items) + "]", s)
    decreases items, 0
  {
    hide Takes;
    var t := PrintItems(style, items);
    if items == [] {
      TakesNothing(s);
    } else {
      PrintTakes(s, style, items[0]);
      if |items| == 1 {
        assert t == Print(style, items[0]);
      } else {
        var rest := PrintItems(style, items[1..]);
        ItemsTake(s, style, items[1..]);
        PlainTakes(s, style.comma);
        TakesBoth(s, style.comma, s, rest, s);
        TakesBoth(s, Print(style, items[0]), s, style.comma + rest, s);
      }
    }
    PlainTakes(s, "[");
    PlainTakes(s, "]");
    TakesBoth(s, "[", s, t, s);
    TakesBoth(s, "[" + t, s, "]", s);
  }

  lemma {:induction false} MembersTake(s: State, style: Style, members: seq<Member>)
    requires Unquoted(s) && s.depth > 0
    ensures Takes(s, PrintMembers(style, members), s)
    decreases members, 0
  {
    hide Takes;
    if members == [] {
      TakesNothing(s);
    } else {
      var key, value := Literal(style, members[0].key), Print(style, members[0].value);
      LiteralTakes(s, style, members[0].key);
      PlainTakes(s, style.colon);
      PrintTakes(s, style, members[0].value);
      TakesBoth(s, key, s, style.colon, s);
      TakesBoth(s, key + style.colon, s, value, s);
      var first := key + style.colon + value;
      if |members| == 1 {
        assert PrintMembers(style, members) == first;
      } else {
        var rest := PrintMembers(style, members[1..]);
        MembersTake(s, style, members[1..]);
        PlainTakes(s, style.comma);
        TakesBoth(s, style.comma, s, rest, s);
        TakesBoth(s, first, s, style.comma + rest, s);
      }
    }
  }

  /** Outside every span, a printed object completes exactly one span: itself. */
  lemma ObjectIsOneSpan(style: Style, v: Json, at: nat)
    requires v.Obj?
    ensures After(OUTSIDE, at, Print(style, v)) == OUTSIDE
    ensures Spans(OUTSIDE, at, Print(style, v)) == [(at, at + |Print(style, v)|)]
  {
    hide After, Spans, PrintMembers;
    var body, inside := PrintMembers(style, v.members), State(1, at, false, false);
    MembersTake(inside, style, v.members);
    assert Print(style, v) == "{" + body + "}";
    hide Print;
    BracesAreOneSpan(body, at);
  }

  lemma BracesAreOneSpan(body: string, at: nat)
    requires After(State(1, at, false, false), at + 1, body) == State(1, at, false, false)
    requires Spans(State(1, at, false, false), at + 1, body) == []
    ensures After(OUTSIDE, at, "{" + body + "}") == OUTSIDE
    ensures Spans(OUTSIDE, at, "{" + body + "}") == [(at, at + 2 + |body|)]
  {
    hide After, Spans;
    var inside, front := State(1, at, false, false), "{" + body;
    OneChar(OUTSIDE, at, '{');
    OneChar(inside, at + |front|, '}');
    ScanConcat(OUTSIDE, at, "{", body);
    assert After(OUTSIDE, at, front) == inside && Spans(OUTSIDE, at, front) == [];
    hide Step, Completes;
    ScanConcat(OUTSIDE, at, front, "}");
  }

  lemma OneChar(s: State, at: nat, c: char)
    ensures After(s, at, [c]) == Step(s, at, c)
    ensures Spans(s, at, [c]) == if Completes(s, c) then [(s.start, at + 1)] else []
  {
    assert [c][..0] == [];
  }

  /** Objects printed one after the other, with `gaps` before, between and after them. */
  function Turn(style: Style, objects: seq<Json>, gaps: seq<string>): string
    requires |gaps| == |objects| + 1
  {
    if objects == [] then gaps[0] else
    var n := |objects| - 1;
    Turn(style, objects[..n], gaps[..n + 1]) + Print(style, objects[n]) + gaps[n + 1]
  }

  /** Text that may stand around printed objects: no quote and no opening brace. */
  ghost predicate Gap(g: string) { '"' !in g && '{' !in g }

  lemma GapTakes(g: string)
    requires Gap(g)
    ensures Takes(OUTSIDE, g, OUTSIDE)
  {
    hide Takes;
    PlainTakes(OUTSIDE, g);
  }

  function Printed(style: Style, objects: seq<Json>): seq<string>
  {
    seq(|objects|, i requires 0 <= i < |objects| => Print(style, objects[i]))
  }

  /** The scanner yields exactly the printed objects, in order; the text around them may hold closing braces. */
  lemma {:induction false} ScannerInvertsPrinter(style: Style, objects: seq<Json>, gaps: seq<string>)
    requires |gaps| == |objects| + 1
    requires forall o :: o in objects ==> o.Obj?
    requires forall g :: g in gaps ==> Gap(g)
    ensures Yielded(Turn(style, objects, gaps)) == Printed(style, objects)
    ensures After(OUTSIDE, 0, Turn(style, objects, gaps)) == OUTSIDE
  {
    hide *;
    if objects == [] {
      EmptyTurn(style, gaps);
    } else {
      var n := |objects| - 1;
      ScannerInvertsPrinter(style, objects[..n], gaps[..n + 1]);
      assert objects[n] in objects && gaps[n + 1] in gaps;
      TurnGrows(style, objects, gaps);
      OneMoreObject(style, Turn(style, objects[..n], gaps[..n + 1]), objects[n], gaps[n + 1]);
    }
  }

  lemma EmptyTurn(style: Style, gaps: seq<string>)
    requires |gaps| == 1 && forall g :: g in gaps ==> Gap(g)
    ensures Yielded(Turn(style, [], gaps)) == Printed(style, []) && After(OUTSIDE, 0, Turn(style, [], gaps)) == OUTSIDE
  {
    assert gaps[0] in gaps;
    GapTakes(gaps[0]);
  }

  lemma OneMoreObject(style: Style, front: string, v: Json, gap: string)
    requires After(OUTSIDE, 0, front) == OUTSIDE && v.Obj? && Gap(gap)
    ensures After(OUTSIDE, 0, front + Print(style, v) + gap) == OUTSIDE
    ensures Yielded(front + Print(style, v) + gap) == Yielded(front) + [Print(style, v)]
  {
    hide *;
    GapTakes(gap);
    ObjectIsOneSpan(style, v, |front|);
    YieldsOneMore(front, Print(style, v), gap);
  }

  lemma TurnGrows(style: Style, objects: seq<Json>, gaps: seq<string>)
    requires objects != [] && |gaps| == |objects| + 1
    ensures var n := |objects| - 1;
            && Turn(style, objects, gaps) == Turn(style, objects[..n], gaps[..n + 1]) + Print(style, objects[n])
                + gaps[n + 1]
            && Printed(style, objects) == Printed(style, objects[..n]) + [Print(style, objects[n])]
  {
    hide Print;
  }

  lemma YieldsOneMore(front: string, piece: string, gap: string)
    requires After(OUTSIDE, 0, front) == OUTSIDE && After(OUTSIDE, |front|, piece) == OUTSIDE
    requires Spans(OUTSIDE, |front|, piece) == [(|front|, |front| + |piece|)] && Takes(OUTSIDE, gap, OUTSIDE)
    ensures After(OUTSIDE, 0, front + piece + gap) == OUTSIDE
    ensures Yielded(front + piece + gap) == Yielded(front) + [piece]
  {
    hide After, Spans;
    var text := front + piece + gap;
    ScanConcat(OUTSIDE, 0, front, piece);
    ScanConcat(OUTSIDE, 0, front + piece, gap);
    var spans := SpansOf(front);
    assert SpansOf(text) == spans + [(|front|, |front| + |piece|)];
    forall i | 0 <= i < |spans|
      ensures text[spans[i].0..spans[i].1] == front[spans[i].0..spans[i].1]
    {
      assert SpanIn(spans[i], front);
    }
    assert text[|front|..|front| + |piece|] == piece;
  }

  // ---------------------------------------------------------------- actions

  datatype Action = Final(answer: string) | Tool(name: string, arguments: seq<Member>)

  /** `value.get(key)`: of repeated keys the last counts. */
  function Get(members: seq<Member>, key: string): Option<Json>
  {
    if members == [] then None
    else if members[|members| - 1].key == key then Some(members[|members| - 1].value)
    else Get(members[..|members| - 1], key)
  }

  function Arguments(members: seq<Member>): seq<Member>
  {
    match Get(members, "arguments")
    case Some(Obj(arguments)) => arguments
    case _ => []
  }

  function Call(members: seq<Member>, name: Option<Json>): Option<Action>
  {
    match name
    case Some(Str(s)) => if Strip(s) == "" then None else Some(Tool(s, Arguments(members)))
    case _ => None
  }

  /** The action a JSON value stands for in the environment's own shape; `show` is Python's `str`. */
  function ActionOf(show: Json -> string, v: Option<Json>): Option<Action>
  {
    match v
    case Some(Obj(members)) =>
      if Get(members, "final").Some? then Some(Final(show(Get(members, "final").value)))
      else Call(members, Get(members, "tool"))
    case _ => None
  }

  /** The action in Qwen's shape. */
  function QwenActionOf(v: Option<Json>): Option<Action>
  {
    match v
    case Some(Obj(members)) => Call(members, Get(members, "name"))
    case _ => None
  }

  /** `i` is the first position whose value is an action. */
  ghost predicate FirstAt<T>(read: T -> Option<Action>, xs: seq<T>, i: nat)
  {
    i < |xs| && read(xs[i]).Some? && forall j :: 0 <= j < i ==> read(xs[j]).None?
  }

  ghost predicate LastAt<T>(read: T -> Option<Action>, xs: seq<T>, i: nat)
  {
    i < |xs| && read(xs[i]).Some? && forall j :: i < j < |xs| ==> read(xs[j]).None?
  }

  ghost predicate NoneAt<T>(read: T -> Option<Action>, xs: seq<T>)
  {
    forall j :: 0 <= j < |xs| ==> read(xs[j]).None?
  }

  /** `parse_action`; `loads` is `json.loads`, without a value where it raises. */
  method ParseAction(loads: string -> Option<Json>, show: Json -> string, text: string) returns (action: Option<Action>)
    ensures var read := (t: string) => ActionOf(show, loads(t));
            if action.None? then NoneAt(read, Yielded(text))
            else exists i: nat :: FirstAt(read, Yielded(text), i) && action == read(Yielded(text)[i])
  {
    var blocks := IterJsonSpans(text);
    ghost var read := (t: string) => ActionOf(show, loads(t));
    for k := 0 to |blocks|
      invariant NoneAt(read, blocks[..k])
    {
      assert blocks[..k + 1] == blocks[..k] + [blocks[k]];
      var value := loads(blocks[k]);
      if value == None || !value.value.Obj? {
        continue;
      }
      var members := value.value.members;
      assert FirstAt(read, blocks, k) || read(blocks[k]).None?;
      if Get(members, "final").Some? {
        return Some(Final(show(Get(members, "final").value)));
      }
      var name := Get(members, "tool");
      if name.Some? {
        if !name.value.Str? || Strip(name.value.chars) == "" {
          continue;
        }
        var args := Get(members, "arguments");
        return Some(Tool(name.value.chars, if args.Some? && args.value.Obj? then args.value.members else []));
      }
    }
    assert blocks[..|blocks|] == blocks;
    return None;
  }

  /** `qwen_action`. */
  method QwenAction(loads: string -> Option<Json>, text: string) returns (found: Option<Action>)
    ensures var read := (t: string) => QwenActionOf(loads(t));
            if found.None? then NoneAt(read, Yielded(text))
            else exists i: nat :: LastAt(read, Yielded(text), i) && found == read(Yielded(text)[i])
  {
    found := None;
    var blocks := IterJsonSpans(text);
    ghost var read := (t: string) => QwenActionOf(loads(t));
    for k := 0 to |blocks|
      invariant if found.None? then NoneAt(read, blocks[..k])
                else exists i: nat :: LastAt(read, blocks[..k], i) && found == read(blocks[i])
    {
      assert blocks[..k + 1] == blocks[..k] + [blocks[k]];
      var value := loads(blocks[k]);
      if value == None || !value.value.Obj? {
        continue;
      }
      var members := value.value.members;
      var name := Get(members, "name");
      if name == None || !name.value.Str? || Strip(name.value.chars) == "" {
        continue;
      }
      var args := Get(members, "arguments");
      found := Some(Tool(name.value.chars, if args.Some? && args.value.Obj? then args.value.members else []));
      assert LastAt(read, blocks[..k + 1], k);
    }
    assert blocks[..|blocks|] == blocks;
  }

  /** On a turn that prints objects, both readers act on the objects: the first action, and the last call. */
  lemma TurnActions(loads: string -> Option<Json>, show: Json -> string,
                    style: Style, objects: seq<Json>, gaps: seq<string>, i: nat)
    requires |gaps| == |objects| + 1
    requires forall o :: o in objects ==> o.Obj? && loads(Print(style, o)) == Some(o)
    requires forall g :: g in gaps ==> Gap(g)
    ensures var spans := Yielded(Turn(style, objects, gaps));
            && FirstAt((t: string) => ActionOf(show, loads(t)), spans, i)
               == FirstAt((o: Json) => ActionOf(show, Some(o)), objects, i)
            && LastAt((t: string) => QwenActionOf(loads(t)), spans, i)
               == LastAt((o: Json) => QwenActionOf(Some(o)), objects, i)
  {
    ScannerInvertsPrinter(style, objects, gaps);
    hide Yielded, Print, ActionOf, QwenActionOf;
    assert forall k :: 0 <= k < |objects| ==> loads(Printed(style, objects)[k]) == Some(objects[k]);
  }
}

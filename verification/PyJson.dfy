/** Python literals, and what `json.loads(json.dumps(v)) == v` says about them. */
module PyJson {
  import opened Wrappers

  // ---------------------------------------------------------------- text

  /** A Python string is a sequence of code points, surrogates included. */
  type CodePoint = n: nat | n < 0x110000

  predicate High(c: nat) { 0xD800 <= c < 0xDC00 }

  predicate Low(c: nat) { 0xDC00 <= c < 0xE000 }

  type Unit = n: nat | n < 0x10000

  /** The `\uXXXX` units that `json.dumps` writes. */
  function Units(s: seq<CodePoint>): seq<Unit>
  {
    if s == [] then []
    else (if s[0] < 0x10000 then [s[0]] else [0xD800 + (s[0] - 0x10000) / 0x400, 0xDC00 + (s[0] - 0x10000) % 0x400])
         + Units(s[1..])
  }

  function Pair(high: nat, low: nat): CodePoint
    requires High(high) && Low(low)
  {
    0x10000 + (high - 0xD800) * 0x400 + (low - 0xDC00)
  }

  /** What `json.loads` makes of them: a high surrogate joins a low one that follows. */
  function Joined(u: seq<Unit>): seq<CodePoint>
  {
    if u == [] then []
    else if |u| > 1 && High(u[0]) && Low(u[1]) then
      [Pair(u[0], u[1])] + Joined(u[2..])
    else [u[0]] + Joined(u[1..])
  }

  /** No high surrogate stands directly before a low one. */
  predicate Whole(s: seq<CodePoint>) { forall i :: 0 <= i < |s| - 1 ==> !(High(s[i]) && Low(s[i + 1])) }

  lemma {:induction false} JoinedIsWhole(u: seq<Unit>)
    ensures Whole(Joined(u))
    ensures u != [] ==> Joined(u) != [] && (Joined(u)[0] == u[0] || Joined(u)[0] >= 0x10000)
  {
    if u == [] {
    } else if |u| > 1 && High(u[0]) && Low(u[1]) {
      JoinedIsWhole(u[2..]);
    } else {
      JoinedIsWhole(u[1..]);
    }
  }

  lemma {:induction false} UnitsRoundTrip(s: seq<CodePoint>)
    requires Whole(s)
    ensures Joined(Units(s)) == s
  {
    if s != [] {
      var rest := Units(s[1..]);
      UnitsRoundTrip(s[1..]);
      assert s == [s[0]] + s[1..];
      if s[0] < 0x10000 {
        assert Units(s) == [s[0]] + rest && Units(s)[1..] == rest;
        FirstUnit(s[1..]);
      } else {
        var d := s[0] - 0x10000;
        assert d / 0x400 * 0x400 + d % 0x400 == d;
        assert Units(s)[2..] == rest;
      }
    }
  }

  lemma FirstUnit(s: seq<CodePoint>)
    ensures Units(s) != [] && Low(Units(s)[0]) ==> s != [] && Low(s[0])
  {
  }

  // ---------------------------------------------------------------- values

  datatype FloatValue = Finite(value: real) | Infinite(negative: bool)

  datatype Item = Item(key: Py, value: Py)

  /** What `ast.literal_eval` returns; `Other` stands for sets, bytes, complex numbers and the ellipsis. */
  datatype Py =
    | None_
    | Bool(truth: bool)
    | Int(n: int)
    | Float(x: FloatValue)
    | Str(chars: seq<CodePoint>)
    | List(elements: seq<Py>)
    | Tuple(elements: seq<Py>)
    | Dict(items: seq<Item>)
    | Other(id: nat)

  /** The number that a bool, an int or a finite float is. */
  function Numeric(v: Py): Option<real>
  {
    match v
    case Bool(b) => Some(if b then 1.0 else 0.0)
    case Int(n) => Some(n as real)
    case Float(Finite(r)) => Some(r)
    case _ => None
  }

  /** Python's `==`: numbers of any kind compare by value, lists and tuples never, dictionaries without order. */
  predicate LooseEq(a: Py, b: Py)
    decreases a
  {
    match (a, b)
    case (List(xs), List(ys)) => |xs| == |ys| && forall i :: 0 <= i < |xs| ==> LooseEq(xs[i], ys[i])
    case (Tuple(xs), Tuple(ys)) => |xs| == |ys| && forall i :: 0 <= i < |xs| ==> LooseEq(xs[i], ys[i])
    case (Dict(xs), Dict(ys)) =>
      && |xs| == |ys|
      && forall i :: 0 <= i < |xs| ==> Found(xs[i], ys)
    case _ => if Numeric(a).Some? && Numeric(b).Some? then Numeric(a) == Numeric(b) else a == b
  }

  /** Some item of `ys` has an equal key and an equal value. */
  predicate Found(x: Item, ys: seq<Item>)
    decreases x, 1
  {
    exists j :: 0 <= j < |ys| && Matches(x, ys[j])
  }

  predicate Matches(x: Item, y: Item)
    decreases x, 0
  {
    LooseEq(x.key, y.key) && LooseEq(x.value, y.value)
  }

  /** The keys of a dictionary are pairwise different. */
  ghost predicate WellFormed(v: Py)
    decreases v
  {
    match v
    case List(xs) => forall i :: 0 <= i < |xs| ==> WellFormed(xs[i])
    case Tuple(xs) => forall i :: 0 <= i < |xs| ==> WellFormed(xs[i])
    case Dict(items) =>
      && (forall i :: 0 <= i < |items| ==> WellFormed(items[i].key) && WellFormed(items[i].value))
      && (forall i, j :: 0 <= i < j < |items| ==> !LooseEq(items[i].key, items[j].key))
    case _ => true
  }

  // ---------------------------------------------------------------- dumps and loads

  datatype Member = Member(name: seq<Unit>, value: Wire)

  /** JSON text, with its strings as the units they are written in. */
  datatype Wire =
    | WireNull
    | WireBool(truth: bool)
    | WireInt(n: int)
    | WireFloat(x: FloatValue)
    | WireString(units: seq<Unit>)
    | WireArray(elements: seq<Wire>)
    | WireObject(members: seq<Member>)

  predicate KeyOk(k: Py) { k.None_? || k.Bool? || k.Int? || k.Float? || k.Str? }

  /** `json.dumps` does not raise. */
  predicate Serialisable(v: Py)
    decreases v
  {
    match v
    case List(xs) => forall i :: 0 <= i < |xs| ==> Serialisable(xs[i])
    case Tuple(xs) => forall i :: 0 <= i < |xs| ==> Serialisable(xs[i])
    case Dict(items) => forall i :: 0 <= i < |items| ==> KeyOk(items[i].key) && Serialisable(items[i].value)
    case Other(_) => false
    case _ => true
  }

  /** The text of a key; `spell` is how keys that are no strings are written. */
  function KeyText(spell: Py -> seq<Unit>, k: Py): seq<Unit> { if k.Str? then Units(k.chars) else spell(k) }

  function Dump(spell: Py -> seq<Unit>, v: Py): Wire
    requires Serialisable(v)
    decreases v
  {
    match v
    case None_ => WireNull
    case Bool(b) => WireBool(b)
    case Int(n) => WireInt(n)
    case Float(x) => WireFloat(x)
    case Str(s) => WireString(Units(s))
    case List(xs) => WireArray(seq(|xs|, i requires 0 <= i < |xs| && Serialisable(xs[i]) => Dump(spell, xs[i])))
    case Tuple(xs) => WireArray(seq(|xs|, i requires 0 <= i < |xs| && Serialisable(xs[i]) => Dump(spell, xs[i])))
    case Dict(items) =>
      WireObject(seq(|items|, i requires 0 <= i < |items| && Serialisable(items[i].value) =>
                                Member(KeyText(spell, items[i].key), Dump(spell, items[i].value))))
  }

  /** `d[key] = value`: a new key goes last. */
  function Put(items: seq<Item>, key: Py, value: Py): seq<Item>
  {
    if items == [] then [Item(key, value)]
    else if items[0].key == key then [Item(key, value)] + items[1..]
    else [items[0]] + Put(items[1..], key, value)
  }

  function Load(w: Wire): Py
    decreases w
  {
    match w
    case WireNull => None_
    case WireBool(b) => Bool(b)
    case WireInt(n) => Int(n)
    case WireFloat(x) => Float(x)
    case WireString(u) => Str(Joined(u))
    case WireArray(ws) => List(seq(|ws|, i requires 0 <= i < |ws| => Load(ws[i])))
    case WireObject(members) => Dict(LoadMembers(members))
  }

  function LoadMembers(members: seq<Member>): seq<Item>
    decreases members
  {
    if members == [] then [] else
    var last := members[|members| - 1];
    Put(LoadMembers(members[..|members| - 1]), Str(Joined(last.name)), Load(last.value))
  }

  /** The round trip of `parse_assert`, and its test whether the value came back. */
  predicate Accepts(spell: Py -> seq<Unit>, v: Py) { Serialisable(v) && LooseEq(Load(Dump(spell, v)), v) }

  /** A JSON value: no tuple, no key but strings, and no string that a surrogate pair splits, at any depth. */
  predicate Plain(v: Py)
    decreases v
  {
    match v
    case Str(s) => Whole(s)
    case List(xs) => forall i :: 0 <= i < |xs| ==> Plain(xs[i])
    case Tuple(_) => false
    case Dict(items) =>
      forall i :: 0 <= i < |items| ==> items[i].key.Str? && Whole(items[i].key.chars) && Plain(items[i].value)
    case Other(_) => false
    case _ => true
  }
}

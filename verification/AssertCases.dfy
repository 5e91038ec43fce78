/** From `assert f(...) == ...` to a structured case: `parse_assert` of `scripts/build_opencode_curated.py`. */
module AssertCases {
  import opened Wrappers
  import opened PyJson
  import opened JsonGuard

  // ---------------------------------------------------------------- syntax

  /** An expression of the parsed test; `Literal` is one that `ast.literal_eval` evaluates. */
  datatype Expr =
    | Name(id: seq<CodePoint>)
    | Literal(value: Py)
    | Call(func: Expr, args: seq<Expr>, keywords: seq<Keyword>)
    | Compare(left: Expr, ops: seq<Operator>, comparators: seq<Expr>)
    | OtherExpr

  /** `name=value`, or `**value` without a name. */
  datatype Keyword = Keyword(arg: Option<seq<CodePoint>>, value: Expr)

  datatype Operator = Eq | OtherOperator

  datatype Stmt = Assert(test: Expr, message: Option<Expr>) | OtherStmt

  /** As many comparators as operators, and every literal a value whose dictionaries have different keys. */
  ghost predicate Parsed(e: Expr)
    decreases e
  {
    match e
    case Literal(v) => WellFormed(v)
    case Call(func, args, keywords) =>
      && Parsed(func)
      && (forall i :: 0 <= i < |args| ==> Parsed(args[i]))
      && (forall i :: 0 <= i < |keywords| ==> Parsed(keywords[i].value))
    case Compare(left, ops, comparators) =>
      && Parsed(left) && |ops| == |comparators| >= 1
      && (forall i :: 0 <= i < |comparators| ==> Parsed(comparators[i]))
    case _ => true
  }

  function Chars(s: string): seq<CodePoint> { seq(|s|, i requires 0 <= i < |s| => s[i] as int) }

  // ---------------------------------------------------------------- the case

  function Values(args: seq<Expr>): seq<Py>
    requires forall i :: 0 <= i < |args| ==> args[i].Literal?
  {
    seq(|args|, i requires 0 <= i < |args| => args[i].value)
  }

  /** The keywords filled into a dictionary one after the other. */
  function Kwargs(keywords: seq<Keyword>): seq<Item>
    requires forall i :: 0 <= i < |keywords| ==> keywords[i].arg.Some? && keywords[i].value.Literal?
  {
    if keywords == [] then [] else
    var last := keywords[|keywords| - 1];
    Put(Kwargs(keywords[..|keywords| - 1]), Str(last.arg.value), last.value.value)
  }

  function CaseOf(name: seq<CodePoint>, args: seq<Py>, kwargs: seq<Item>, expected: Py): Py
  {
    var entry := [Item(Str(Chars("kind")), Str(Chars("function"))), Item(Str(Chars("name")), Str(name))];
    Dict([Item(Str(Chars("entry")), Dict(entry)),
          Item(Str(Chars("args")), List(args)),
          Item(Str(Chars("kwargs")), Dict(kwargs)),
          Item(Str(Chars("expected")), expected),
          Item(Str(Chars("compare")), Str(Chars("exact")))])
  }

  /** A call of a plain name with literal arguments and named keywords, compared for equality with a literal. */
  predicate Structured(e: Expr)
  {
    && e.Compare? && |e.ops| == 1 && e.ops[0] == Eq && |e.comparators| == 1 && e.comparators[0].Literal?
    && e.left.Call? && e.left.func.Name?
    && (forall i :: 0 <= i < |e.left.args| ==> e.left.args[i].Literal?)
    && (forall i :: 0 <= i < |e.left.keywords| ==> e.left.keywords[i].arg.Some? && e.left.keywords[i].value.Literal?)
  }

  function CaseFrom(e: Expr): Py
    requires Structured(e)
  {
    CaseOf(e.left.func.id, Values(e.left.args), Kwargs(e.left.keywords), e.comparators[0].value)
  }

  // ---------------------------------------------------------------- cases are well-formed values

  ghost predicate GoodItems(items: seq<Item>)
  {
    DistinctKeys(items) && forall i :: 0 <= i < |items| ==> items[i].key.Str? && WellFormed(items[i].value)
  }

  lemma GoodItemsWellFormed(items: seq<Item>)
    requires GoodItems(items)
    ensures WellFormed(Dict(items))
  {
    forall i, j | 0 <= i < j < |items|
      ensures !LooseEq(items[i].key, items[j].key)
    {
      assert items[i].key != items[j].key;
    }
  }

  lemma {:induction false} PutKeepsGood(items: seq<Item>, key: seq<CodePoint>, value: Py)
    requires GoodItems(items) && WellFormed(value)
    ensures GoodItems(Put(items, Str(key), value))
    ensures forall k :: HasKey(Put(items, Str(key), value), k) <==> HasKey(items, k) || k == Str(key)
  {
    hide WellFormed;
    if items != [] {
      var rest := items[1..];
      if items[0].key == Str(key) {
        ConsGood(Item(Str(key), value), rest);
        ConsGood(items[0], rest);
        assert items == [items[0]] + rest;
      } else {
        ConsGood(items[0], rest);
        assert items == [items[0]] + rest;
        PutKeepsGood(rest, key, value);
        ConsGood(items[0], Put(rest, Str(key), value));
      }
    } else {
      ConsGood(Item(Str(key), value), []);
      assert [Item(Str(key), value)] + [] == [Item(Str(key), value)];
    }
  }

  lemma ConsGood(item: Item, rest: seq<Item>)
    ensures GoodItems([item] + rest) <==>
            item.key.Str? && WellFormed(item.value) && !HasKey(rest, item.key) && GoodItems(rest)
    ensures forall k :: HasKey([item] + rest, k) <==> k == item.key || HasKey(rest, k)
  {
    hide WellFormed;
    var all := [item] + rest;
    assert all[0] == item && forall i :: 0 <= i < |rest| ==> all[i + 1] == rest[i];
    assert forall i :: 0 < i < |all| ==> all[i] == rest[i - 1];
  }

  lemma {:induction false} KwargsGood(keywords: seq<Keyword>)
    requires forall i :: 0 <= i < |keywords| ==> keywords[i].arg.Some? && keywords[i].value.Literal?
    requires forall i :: 0 <= i < |keywords| ==> WellFormed(keywords[i].value.value)
    ensures GoodItems(Kwargs(keywords))
  {
    if keywords != [] {
      var last := keywords[|keywords| - 1];
      KwargsGood(keywords[..|keywords| - 1]);
      PutKeepsGood(Kwargs(keywords[..|keywords| - 1]), last.arg.value, last.value.value);
    }
  }

  lemma CharsDiffer(a: string, b: string)
    ensures Chars(a) == Chars(b) ==> a == b
  {
    if Chars(a) == Chars(b) {
      assert |Chars(a)| == |Chars(b)|;
      forall i | 0 <= i < |a|
        ensures a[i] == b[i]
      {
        assert Chars(a)[i] == Chars(b)[i];
      }
    }
  }

  lemma CaseWellFormed(e: Expr)
    requires Structured(e) && Parsed(e)
    ensures WellFormed(CaseFrom(e))
  {
    assert Parsed(e.left) && Parsed(e.comparators[0]);
    assert forall i :: 0 <= i < |e.left.args| ==> Parsed(e.left.args[i]);
    assert forall i :: 0 <= i < |e.left.keywords| ==> Parsed(e.left.keywords[i].value);
    KwargsGood(e.left.keywords);
    GoodItemsWellFormed(Kwargs(e.left.keywords));
    assert WellFormed(List(Values(e.left.args)));
    CaseOfWellFormed(e.left.func.id, Values(e.left.args), Kwargs(e.left.keywords), e.comparators[0].value);
  }

  lemma CaseOfWellFormed(name: seq<CodePoint>, args: seq<Py>, kwargs: seq<Item>, expected: Py)
    requires WellFormed(List(args)) && WellFormed(Dict(kwargs)) && WellFormed(expected)
    ensures WellFormed(CaseOf(name, args, kwargs, expected))
  {
    var entry := [Item(Str(Chars("kind")), Str(Chars("function"))), Item(Str(Chars("name")), Str(name))];
    CharsDiffer("kind", "name");
    GoodItemsWellFormed(entry);
    CharsDiffer("entry", "args");
    CharsDiffer("entry", "kwargs");
    CharsDiffer("entry", "expected");
    CharsDiffer("entry", "compare");
    CharsDiffer("args", "kwargs");
    CharsDiffer("args", "expected");
    CharsDiffer("args", "compare");
    CharsDiffer("kwargs", "expected");
    CharsDiffer("kwargs", "compare");
    CharsDiffer("expected", "compare");
    hide Chars;
    GoodItemsWellFormed(CaseOf(name, args, kwargs, expected).items);
  }

  // ---------------------------------------------------------------- the translation

  /** `parse_assert` on the statements that `ast.parse` found, if it found any. */
  method ParseAssert(spell: Py -> seq<Unit>, tree: Option<seq<Stmt>>) returns (case_: Option<Py>)
    requires tree.Some? ==> forall i :: 0 <= i < |tree.value| && tree.value[i].Assert? ==> Parsed(tree.value[i].test)
    ensures case_.Some? <==>
            && tree.Some? && |tree.value| == 1 && tree.value[0].Assert?
            && Structured(tree.value[0].test) && Plain(CaseFrom(tree.value[0].test))
    ensures case_.Some? ==> case_.value == CaseFrom(tree.value[0].test)
  {
    if tree == None {
      return None;
    }
    if |tree.value| != 1 || !tree.value[0].Assert? {
      return None;
    }
    var cmp := tree.value[0].test;
    if !cmp.Compare? || |cmp.ops| != 1 || cmp.ops[0] != Eq {
      return None;
    }
    var call, rhs := cmp.left, cmp.comparators[0];
    if !call.Call? || !call.func.Name? {
      return None;
    }
    if !rhs.Literal? {
      return None;
    }
    var expected, args := rhs.value, [];
    for i := 0 to |call.args|
      invariant |args| == i
      invariant forall k :: 0 <= k < i ==> call.args[k].Literal? && args[k] == call.args[k].value
    {
      if !call.args[i].Literal? {
        return None;
      }
      args := args + [call.args[i].value];
    }
    var kwargs := [];
    for i := 0 to |call.keywords|
      invariant forall k :: 0 <= k < i ==> call.keywords[k].arg.Some? && call.keywords[k].value.Literal?
      invariant kwargs == Kwargs(call.keywords[..i])
    {
      var kw := call.keywords[i];
      if kw.arg == None || !kw.value.Literal? {
        return None;
      }
      assert call.keywords[..i + 1][..i] == call.keywords[..i];
      kwargs := Put(kwargs, Str(kw.arg.value), kw.value.value);
    }
    assert call.keywords[..|call.keywords|] == call.keywords;
    assert args == Values(call.args);
    var v := CaseOf(call.func.id, args, kwargs, expected);
    CaseWellFormed(cmp);
    GuardIff(spell, v);
    hide Serialisable, LooseEq, Plain, CaseOf;
    if !Serialisable(v) {
      return None;
    }
    var canonical := Load(Dump(spell, v));
    if !LooseEq(canonical, v) {
      return None;
    }
    return Some(canonical);
  }

  // ---------------------------------------------------------------- what a case and an assert mean

  /** A function under test: it returns a value or raises. */
  type Function<V> = (seq<Py>, seq<Item>) -> Option<V>

  /** `d[key]`. */
  function Field(v: Py, key: string): Option<Py>
  {
    if v.Dict? then Lookup(v.items, Str(Chars(key))) else None
  }

  function Lookup(items: seq<Item>, key: Py): Option<Py>
  {
    if items == [] then None else if items[0].key == key then Some(items[0].value) else Lookup(items[1..], key)
  }

  /** What a name stands for: nothing, a value that cannot be called, or a function. */
  datatype Bound<V> = Unbound | NotCallable | Callable(call: Function<V>)

  type Namespace<V> = seq<CodePoint> -> Bound<V>

  /** The call returns a value. */
  ghost predicate Answers<V>(b: Bound<V>, args: seq<Py>, kwargs: seq<Item>)
  {
    b.Callable? && b.call(args, kwargs).Some?
  }

  /** The call returns, and `same`, which is `==` on what it returned, accepts the value. */
  ghost predicate Holds<V>(b: Bound<V>, same: (V, Py) -> bool, args: seq<Py>, kwargs: seq<Item>, expected: Py)
  {
    Answers(b, args, kwargs) && same(b.call(args, kwargs).value, expected)
  }

  /** Grading a case: look the name up in the namespace that the solution left, and nowhere else, and call it. */
  ghost predicate CasePasses<V>(ns: Namespace<V>, same: (V, Py) -> bool, c: Py)
  {
    var entry, args, kwargs, expected := Field(c, "entry"), Field(c, "args"), Field(c, "kwargs"), Field(c, "expected");
    && entry.Some? && args.Some? && kwargs.Some? && expected.Some? && args.value.List? && kwargs.value.Dict?
    && Field(entry.value, "name").Some? && Field(entry.value, "name").value.Str?
    && Holds(ns(Field(entry.value, "name").value.chars), same, args.value.elements, kwargs.value.items, expected.value)
  }

  /** A name in Python code: the namespace first, then the builtins. */
  function Resolve<V>(ns: Namespace<V>, builtins: Namespace<V>, name: seq<CodePoint>): Bound<V>
  {
    if ns(name).Unbound? then builtins(name) else ns(name)
  }

  ghost predicate DistinctNames(keywords: seq<Keyword>)
  {
    forall i, j :: 0 <= i < j < |keywords| ==> keywords[i].arg != keywords[j].arg
  }

  /** The keyword arguments of a call that compiles. */
  function KeywordItems(keywords: seq<Keyword>): seq<Item>
    requires forall i :: 0 <= i < |keywords| ==> keywords[i].arg.Some? && keywords[i].value.Literal?
  {
    seq(|keywords|, i requires 0 <= i < |keywords| => Item(Str(keywords[i].arg.value), keywords[i].value.value))
  }

  /** Running the assert in the same namespace: a call that repeats a keyword does not compile, and the message plays no
      part. */
  ghost predicate AssertPasses<V>(ns: Namespace<V>, builtins: Namespace<V>, same: (V, Py) -> bool, e: Expr)
    requires Structured(e)
  {
    && DistinctNames(e.left.keywords)
    && Holds(Resolve(ns, builtins, e.left.func.id), same, Values(e.left.args), KeywordItems(e.left.keywords),
             e.comparators[0].value)
  }

  lemma {:induction false} KwargsInOrder(keywords: seq<Keyword>)
    requires forall i :: 0 <= i < |keywords| ==> keywords[i].arg.Some? && keywords[i].value.Literal?
    requires DistinctNames(keywords)
    ensures Kwargs(keywords) == KeywordItems(keywords)
  {
    if keywords != [] {
      var before, last := keywords[..|keywords| - 1], keywords[|keywords| - 1];
      KwargsInOrder(before);
      assert !HasKey(KeywordItems(before), Str(last.arg.value)) by {
        assert forall i :: 0 <= i < |before| ==> KeywordItems(before)[i].key == Str(keywords[i].arg.value);
      }
      PutFacts(Kwargs(before), Str(last.arg.value), last.value.value);
      assert KeywordItems(keywords) == KeywordItems(before) + [Item(Str(last.arg.value), last.value.value)];
    }
  }

  lemma CaseFields(name: seq<CodePoint>, args: seq<Py>, kwargs: seq<Item>, expected: Py)
    ensures var c := CaseOf(name, args, kwargs, expected);
            && Field(c, "args") == Some(List(args)) && Field(c, "kwargs") == Some(Dict(kwargs))
            && Field(c, "expected") == Some(expected)
            && Field(c, "entry").Some? && Field(Field(c, "entry").value, "name") == Some(Str(name))
  {
    var c := CaseOf(name, args, kwargs, expected);
    CharsDiffer("entry", "args");
    CharsDiffer("entry", "kwargs");
    CharsDiffer("entry", "expected");
    CharsDiffer("args", "kwargs");
    CharsDiffer("args", "expected");
    CharsDiffer("kwargs", "expected");
    CharsDiffer("kind", "name");
    hide Chars;
    LookupAt(c.items, 0);
    LookupAt(c.items, 1);
    LookupAt(c.items, 2);
    LookupAt(c.items, 3);
    LookupAt(c.items[0].value.items, 1);
  }

  lemma {:induction false} LookupAt(items: seq<Item>, i: nat)
    requires i < |items| && forall j :: 0 <= j < i ==> items[j].key != items[i].key
    ensures Lookup(items, items[i].key) == Some(items[i].value)
  {
    if i > 0 {
      assert items[1..][i - 1] == items[i];
      LookupAt(items[1..], i - 1);
    }
  }

  lemma CaseMeans<V>(ns: Namespace<V>, same: (V, Py) -> bool, e: Expr)
    requires Structured(e)
    ensures CasePasses(ns, same, CaseFrom(e)) <==>
            Holds(ns(e.left.func.id), same, Values(e.left.args), Kwargs(e.left.keywords), e.comparators[0].value)
  {
    CaseFields(e.left.func.id, Values(e.left.args), Kwargs(e.left.keywords), e.comparators[0].value);
    hide Field, CaseOf, Kwargs, Holds;
  }

  /** Whatever the solution defines and however its results compare, the case passes exactly when the assert does. */
  ghost predicate SameVerdict(builtins: Namespace<Py>, e: Expr)
    requires Structured(e)
  {
    forall ns: Namespace<Py>, same: (Py, Py) -> bool ::
      CasePasses(ns, same, CaseFrom(e)) <==> AssertPasses(ns, builtins, same, e)
  }

  /** The called name is a builtin that returns a value on these very arguments. */
  ghost predicate BuiltinAnswers(builtins: Namespace<Py>, e: Expr)
    requires Structured(e)
  {
    Answers(builtins(e.left.func.id), Values(e.left.args), KeywordItems(e.left.keywords))
  }

  /** The translation preserves meaning exactly when the call repeats no keyword and no builtin answers it. */
  lemma SameVerdictIff(builtins: Namespace<Py>, e: Expr)
    requires Structured(e)
    ensures SameVerdict(builtins, e) <==> DistinctNames(e.left.keywords) && !BuiltinAnswers(builtins, e)
  {
    hide CasePasses, CaseFrom;
    if !DistinctNames(e.left.keywords) {
      RepeatedKeyword(builtins, e);
    } else if BuiltinAnswers(builtins, e) {
      BuiltinOnlyInAssert(builtins, e);
    } else {
      forall ns: Namespace<Py>, same: (Py, Py) -> bool
        ensures CasePasses(ns, same, CaseFrom(e)) <==> AssertPasses(ns, builtins, same, e)
      {
        CaseMeans(ns, same, e);
        KwargsInOrder(e.left.keywords);
      }
    }
  }

  lemma RepeatedKeyword(builtins: Namespace<Py>, e: Expr)
    requires Structured(e) && !DistinctNames(e.left.keywords)
    ensures !SameVerdict(builtins, e)
  {
    hide CasePasses, CaseFrom;
    var f: Function<Py> := (args, kwargs) => Some(None_);
    var ns: Namespace<Py> := name => Callable(f);
    var same: (Py, Py) -> bool := (got, expected) => true;
    CaseMeans(ns, same, e);
    assert CasePasses(ns, same, CaseFrom(e)) && !AssertPasses(ns, builtins, same, e);
  }

  /** A solution that does not define the name leaves the assert to the builtin, and the case without a function. */
  lemma BuiltinOnlyInAssert(builtins: Namespace<Py>, e: Expr)
    requires Structured(e) && DistinctNames(e.left.keywords) && BuiltinAnswers(builtins, e)
    ensures !SameVerdict(builtins, e)
  {
    hide CasePasses, CaseFrom;
    var ns: Namespace<Py> := name => Unbound;
    var same: (Py, Py) -> bool := (got, expected) => true;
    CaseMeans(ns, same, e);
    assert !CasePasses(ns, same, CaseFrom(e)) && AssertPasses(ns, builtins, same, e);
  }

  /** Only the names in `names` are builtins. */
  ghost predicate Among(builtins: Namespace<Py>, names: set<seq<CodePoint>>)
  {
    forall name :: name !in names ==> builtins(name).Unbound?
  }

  /** So, whatever the builtins of these names do: exactly when no keyword is repeated and the name is none of them. */
  lemma SameVerdictByName(names: set<seq<CodePoint>>, e: Expr)
    requires Structured(e)
    ensures (forall builtins: Namespace<Py> :: Among(builtins, names) ==> SameVerdict(builtins, e))
            <==> DistinctNames(e.left.keywords) && e.left.func.id !in names
  {
    forall builtins: Namespace<Py>
      ensures SameVerdict(builtins, e) <==> DistinctNames(e.left.keywords) && !BuiltinAnswers(builtins, e)
    {
      SameVerdictIff(builtins, e);
    }
    hide SameVerdict;
    var f: Function<Py> := (args, kwargs) => Some(None_);
    var all: Namespace<Py> := name => if name in names then Callable(f) else Unbound;
    assert Among(all, names) && (BuiltinAnswers(all, e) <==> e.left.func.id in names);
  }

  /** `assert len([1, 2]) == 2`. */
  ghost function CallingLen(): Expr
  {
    Compare(Call(Name(Chars("len")), [Literal(List([Int(1), Int(2)]))], []), [Eq], [Literal(Int(2))])
  }

  ghost function Len(): Function<Py>
  {
    (args: seq<Py>, kwargs: seq<Item>) =>
      if |args| == 1 && kwargs == [] && args[0].List? then Some(Int(|args[0].elements|)) else None
  }

  /** That assert is translated. Where `len` is the builtin, it passes for every solution that leaves `len` alone; the
      case passes for none of them. */
  lemma BuiltinIsTranslated(spell: Py -> seq<Unit>, ns: Namespace<Py>, builtins: Namespace<Py>)
    requires builtins(Chars("len")) == Callable(Len()) && ns(Chars("len")).Unbound?
    ensures Structured(CallingLen()) && Parsed(CallingLen()) && Accepts(spell, CaseFrom(CallingLen()))
    ensures AssertPasses(ns, builtins, LooseEq, CallingLen()) && !CasePasses(ns, LooseEq, CaseFrom(CallingLen()))
  {
    hide Chars, CaseFrom, Plain, Accepts, AssertPasses, CasePasses, CallingLen, Structured, Parsed, Len;
    LenIsPlain();
    LenPasses(ns, builtins);
    LenCaseFails(ns);
    CaseWellFormed(CallingLen());
    GuardIff(spell, CaseFrom(CallingLen()));
  }

  lemma LenIsPlain()
    ensures Structured(CallingLen()) && Parsed(CallingLen()) && Plain(CaseFrom(CallingLen()))
  {
    AsciiWhole("len");
    hide Chars, CaseOf;
    var e := CallingLen();
    assert Parsed(e.left.args[0]) && Parsed(e.left.func);
    assert Values(e.left.args) == [List([Int(1), Int(2)])] && Kwargs(e.left.keywords) == [];
    CaseOfPlain(Chars("len"), Values(e.left.args), [], Int(2));
  }

  lemma LenCaseFails(ns: Namespace<Py>)
    requires ns(Chars("len")).Unbound?
    ensures Structured(CallingLen()) && !CasePasses(ns, LooseEq, CaseFrom(CallingLen()))
  {
    hide Chars, CasePasses, CaseFrom;
    CaseMeans(ns, LooseEq, CallingLen());
  }

  lemma LenPasses(ns: Namespace<Py>, builtins: Namespace<Py>)
    requires builtins(Chars("len")) == Callable(Len()) && ns(Chars("len")).Unbound?
    ensures AssertPasses(ns, builtins, LooseEq, CallingLen())
  {
    hide Chars;
    var e := CallingLen();
    assert Values(e.left.args) == [List([Int(1), Int(2)])] && KeywordItems(e.left.keywords) == [];
    assert Len()([List([Int(1), Int(2)])], []) == Some(Int(2));
  }

  /** `assert f(a=1, a=1) == 1`. */
  ghost function Repeating(): Expr
  {
    var a := Keyword(Some(Chars("a")), Literal(Int(1)));
    Compare(Call(Name(Chars("f")), [], [a, a]), [Eq], [Literal(Int(1))])
  }

  lemma RepeatingIsPlain()
    ensures Structured(Repeating()) && Plain(CaseFrom(Repeating()))
  {
    var a := Keyword(Some(Chars("a")), Literal(Int(1)));
    KeywordTwice(a);
    AsciiWhole("f");
    AsciiWhole("a");
    hide Chars, Kwargs, CaseOf;
    CaseOfPlain(Chars("f"), Values([]), Kwargs([a, a]), Int(1));
  }

  /** That assert is translated, although no function makes it pass. */
  lemma RepeatedKeywordIsTranslated(spell: Py -> seq<Unit>)
    ensures Structured(Repeating()) && Parsed(Repeating())
    ensures Accepts(spell, CaseFrom(Repeating())) && forall builtins :: !SameVerdict(builtins, Repeating())
  {
    hide Chars, CaseFrom, Plain, SameVerdict, Accepts;
    var e := Repeating();
    RepeatingIsPlain();
    assert !DistinctNames(e.left.keywords) by { assert e.left.keywords[0] == e.left.keywords[1]; }
    forall builtins: Namespace<Py>
      ensures !SameVerdict(builtins, e)
    {
      RepeatedKeyword(builtins, e);
    }
    CaseWellFormed(e);
    GuardIff(spell, CaseFrom(e));
  }

  lemma KeywordTwice(a: Keyword)
    requires a.arg.Some? && a.value.Literal?
    ensures Kwargs([a, a]) == [Item(Str(a.arg.value), a.value.value)]
  {
    assert [a][..0] == [] && [a, a][..1] == [a];
    assert Kwargs([a]) == [Item(Str(a.arg.value), a.value.value)];
  }

  lemma AsciiWhole(s: string)
    requires forall i :: 0 <= i < |s| ==> s[i] < '~'
    ensures Whole(Chars(s))
  {
  }

  lemma CaseOfPlain(name: seq<CodePoint>, args: seq<Py>, kwargs: seq<Item>, expected: Py)
    ensures Plain(CaseOf(name, args, kwargs, expected)) <==>
            Whole(name) && Plain(List(args)) && Plain(Dict(kwargs)) && Plain(expected)
  {
    var c := CaseOf(name, args, kwargs, expected);
    AsciiWhole("entry");
    AsciiWhole("kind");
    AsciiWhole("function");
    AsciiWhole("name");
    AsciiWhole("args");
    AsciiWhole("kwargs");
    AsciiWhole("expected");
    AsciiWhole("compare");
    AsciiWhole("exact");
    hide Chars, Whole;
    var entry := c.items[0].value;
    assert Plain(entry) <==> Whole(name) by { assert entry.items[1].value == Str(name); }
    assert c.items[1].value == List(args) && c.items[2].value == Dict(kwargs) && c.items[3].value == expected;
  }
}

/** Exactly which values survive the JSON round trip of `scripts/build_opencode_curated.py`. */
module JsonGuard {
  import opened PyJson
  import opened Sets

  // ---------------------------------------------------------------- dictionaries built key by key

  ghost predicate HasKey(items: seq<Item>, key: Py) { exists i :: 0 <= i < |items| && items[i].key == key }

  lemma {:induction false} PutFacts(items: seq<Item>, key: Py, value: Py)
    ensures !HasKey(items, key) ==> Put(items, key, value) == items + [Item(key, value)]
    ensures HasKey(items, key) ==> |Put(items, key, value)| == |items|
  {
    if items != [] {
      PutFacts(items[1..], key, value);
      assert items == [items[0]] + items[1..];
      assert HasKey(items, key) <==> items[0].key == key || HasKey(items[1..], key) by {
        if HasKey(items[1..], key) {
          var i :| 0 <= i < |items| - 1 && items[1..][i].key == key;
          assert items[i + 1].key == key;
        }
        if HasKey(items, key) && items[0].key != key {
          var i :| 0 <= i < |items| && items[i].key == key;
          assert items[1..][i - 1].key == key;
        }
      }
    }
  }

  function Loaded(m: Member): Item { Item(Str(Joined(m.name)), Load(m.value)) }

  function LoadedAll(members: seq<Member>): seq<Item>
  {
    seq(|members|, i requires 0 <= i < |members| => Loaded(members[i]))
  }

  ghost predicate DistinctKeys(items: seq<Item>)
  {
    forall i, j :: 0 <= i < j < |items| ==> items[i].key != items[j].key
  }

  /** An object loads without losing a member exactly when its names stay different. */
  lemma {:induction false} LoadKeepsAll(members: seq<Member>)
    ensures |LoadMembers(members)| <= |members|
    ensures |LoadMembers(members)| == |members| <==> DistinctKeys(LoadedAll(members))
    ensures |LoadMembers(members)| == |members| ==> LoadMembers(members) == LoadedAll(members)
  {
    if members != [] {
      var before, last := members[..|members| - 1], members[|members| - 1];
      LoadKeepsAll(before);
      var key, value := Str(Joined(last.name)), Load(last.value);
      PutFacts(LoadMembers(before), key, value);
      assert LoadMembers(members) == Put(LoadMembers(before), key, value);
      assert LoadedAll(members) == LoadedAll(before) + [Item(key, value)];
      hide Put, Load, Joined, LoadMembers, LoadedAll;
      DistinctGrow(LoadedAll(before), Item(key, value));
    }
  }

  lemma DistinctGrow(items: seq<Item>, item: Item)
    ensures DistinctKeys(items + [item]) <==> DistinctKeys(items) && !HasKey(items, item.key)
  {
    var more := items + [item];
    if DistinctKeys(more) {
      forall i | 0 <= i < |items|
        ensures items[i].key != item.key
      {
        assert more[i].key != more[|items|].key;
      }
      forall i, j | 0 <= i < j < |items|
        ensures items[i].key != items[j].key
      {
        assert more[i].key != more[j].key;
      }
    }
  }

  // ---------------------------------------------------------------- loose equality

  lemma {:induction false} LooseEqReflexive(v: Py)
    ensures LooseEq(v, v)
    decreases v
  {
    match v
    case List(xs) =>
      forall i | 0 <= i < |xs|
        ensures LooseEq(xs[i], xs[i])
      {
        LooseEqReflexive(xs[i]);
      }
    case Tuple(xs) =>
      forall i | 0 <= i < |xs|
        ensures LooseEq(xs[i], xs[i])
      {
        LooseEqReflexive(xs[i]);
      }
    case Dict(items) =>
      forall i | 0 <= i < |items|
        ensures Found(items[i], items)
      {
        LooseEqReflexive(items[i].key);
        LooseEqReflexive(items[i].value);
        assert Matches(items[i], items[i]);
      }
    case _ =>
  }

  lemma StringKeysDiffer(items: seq<Item>)
    requires WellFormed(Dict(items)) && forall i :: 0 <= i < |items| ==> items[i].key.Str?
    ensures DistinctKeys(items)
  {
  }

  // ---------------------------------------------------------------- plain values come back

  lemma {:induction false} PlainComesBack(spell: Py -> seq<Unit>, v: Py)
    requires WellFormed(v) && Plain(v)
    ensures Serialisable(v) && Load(Dump(spell, v)) == v
    decreases v
  {
    match v
    case Str(s) => UnitsRoundTrip(s);
    case List(xs) =>
      forall i | 0 <= i < |xs|
        ensures Serialisable(xs[i]) && Load(Dump(spell, xs[i])) == xs[i]
      {
        PlainComesBack(spell, xs[i]);
      }
    case Dict(items) =>
      forall i | 0 <= i < |items|
        ensures Serialisable(items[i].value) && Load(Dump(spell, items[i].value)) == items[i].value
        ensures Joined(KeyText(spell, items[i].key)) == items[i].key.chars
      {
        PlainComesBack(spell, items[i].value);
        UnitsRoundTrip(items[i].key.chars);
      }
      DictComesBack(spell, items);
    case _ =>
  }

  lemma DictComesBack(spell: Py -> seq<Unit>, items: seq<Item>)
    requires WellFormed(Dict(items)) && Serialisable(Dict(items))
    requires forall i :: 0 <= i < |items| ==>
      && items[i].key.Str? && Joined(KeyText(spell, items[i].key)) == items[i].key.chars
      && Load(Dump(spell, items[i].value)) == items[i].value
    ensures Load(Dump(spell, Dict(items))) == Dict(items)
  {
    var members := Dump(spell, Dict(items)).members;
    forall i | 0 <= i < |items|
      ensures Loaded(members[i]) == items[i]
    {
      assert members[i] == Member(KeyText(spell, items[i].key), Dump(spell, items[i].value));
    }
    assert LoadedAll(members) == items;
    StringKeysDiffer(items);
    LoadKeepsAll(members);
  }

  // ---------------------------------------------------------------- nothing else does

  function KeySet(items: seq<Item>): set<Py> { set i | 0 <= i < |items| :: items[i].key }

  lemma {:induction false} KeyCount(items: seq<Item>)
    ensures |KeySet(items)| <= |items|
    ensures DistinctKeys(items) ==> |KeySet(items)| == |items|
  {
    if items != [] {
      var before, last := items[..|items| - 1], items[|items| - 1];
      KeyCount(before);
      assert items == before + [last];
      assert KeySet(items) == KeySet(before) + {last.key} by {
        assert forall i :: 0 <= i < |before| ==> items[i] == before[i];
      }
      DistinctGrow(before, last);
      assert last.key in KeySet(before) <==> HasKey(before, last.key);
    } else {
      assert KeySet(items) == {};
    }
  }

  /** As many different keys as a dictionary has, all among its own, are all of its own. */
  lemma KeysCovered(canon: seq<Item>, items: seq<Item>)
    requires |canon| == |items| && DistinctKeys(canon) && KeySet(canon) <= KeySet(items)
    ensures KeySet(canon) == KeySet(items)
  {
    KeyCount(canon);
    KeyCount(items);
    SubsetSame(KeySet(canon), KeySet(items));
  }

  /** What it means that a loaded dictionary equals the one that was written. */
  ghost predicate Returned(canon: seq<Item>, items: seq<Item>)
  {
    && |canon| == |items| && DistinctKeys(canon)
    && (forall i :: 0 <= i < |items| ==> canon[i].key.Str?)
    && (forall i :: 0 <= i < |items| ==> Found(canon[i], items))
  }

  lemma StringFound(x: Item, items: seq<Item>) returns (j: nat)
    requires Found(x, items) && x.key.Str?
    ensures j < |items| && x.key == items[j].key && LooseEq(x.value, items[j].value)
  {
    j :| 0 <= j < |items| && Matches(x, items[j]);
    assert LooseEq(x.key, items[j].key);
  }

  lemma DictReturned(spell: Py -> seq<Unit>, items: seq<Item>)
    requires Accepts(spell, Dict(items))
    ensures Returned(LoadedAll(Dump(spell, Dict(items)).members), items)
  {
    var members := Dump(spell, Dict(items)).members;
    assert |members| == |items|;
    LoadKeepsAll(members);
    hide LooseEq, Serialisable, Dump, LoadMembers;
    assert forall i :: 0 <= i < |items| ==> LoadedAll(members)[i].key.Str?;
  }

  lemma AllKeysAreStrings(canon: seq<Item>, items: seq<Item>)
    requires Returned(canon, items)
    ensures KeySet(canon) == KeySet(items)
    ensures forall i :: 0 <= i < |items| ==> items[i].key.Str?
  {
    forall i | 0 <= i < |canon|
      ensures canon[i].key in KeySet(items)
    {
      var j := StringFound(canon[i], items);
    }
    KeysCovered(canon, items);
    forall i | 0 <= i < |items|
      ensures items[i].key.Str?
    {
      assert items[i].key in KeySet(canon);
    }
  }

  function Again(s: seq<CodePoint>): seq<CodePoint> { Joined(Units(s)) }

  lemma AgainTwice(s: seq<CodePoint>)
    ensures Again(Again(s)) == Again(s) && Whole(Again(s))
  {
    JoinedIsWhole(Units(s));
    UnitsRoundTrip(Again(s));
  }

  /** The keys that come back as keys of the same dictionary come back as themselves. */
  lemma KeysComeBack(canon: seq<Item>, items: seq<Item>, i: nat)
    requires Returned(canon, items) && i < |items|
    requires forall k :: 0 <= k < |items| && items[k].key.Str? ==> canon[k].key == Str(Again(items[k].key.chars))
    ensures items[i].key.Str? && Whole(items[i].key.chars) && canon[i].key == items[i].key
  {
    hide Again, Whole;
    AllKeysAreStrings(canon, items);
    var j := StringFound(canon[i], items);
    AgainTwice(items[i].key.chars);
    assert canon[j].key == canon[i].key;
    assert i == j;
  }

  lemma {:induction false} AcceptedIsPlain(spell: Py -> seq<Unit>, v: Py)
    requires WellFormed(v) && Accepts(spell, v)
    ensures Plain(v)
    decreases v
  {
    match v
    case Str(s) => JoinedIsWhole(Units(s));
    case List(xs) =>
      forall i | 0 <= i < |xs|
        ensures Plain(xs[i])
      {
        AcceptedIsPlain(spell, xs[i]);
      }
    case Dict(items) =>
      forall i | 0 <= i < |items|
        ensures items[i].key.Str? && Whole(items[i].key.chars) && Plain(items[i].value)
      {
        DictPart(spell, items, i);
        AcceptedIsPlain(spell, items[i].value);
      }
    case _ =>
  }

  /** Each key of an accepted dictionary is a whole string, and each value is accepted by itself. */
  lemma DictPart(spell: Py -> seq<Unit>, items: seq<Item>, i: nat)
    requires WellFormed(Dict(items)) && Accepts(spell, Dict(items)) && i < |items|
    ensures items[i].key.Str? && Whole(items[i].key.chars) && Accepts(spell, items[i].value)
  {
    var members := Dump(spell, Dict(items)).members;
    var canon := LoadedAll(members);
    DictReturned(spell, items);
    assert forall k :: 0 <= k < |items| && items[k].key.Str? ==> canon[k].key == Str(Again(items[k].key.chars));
    assert Serialisable(items[i].value) && canon[i].value == Load(Dump(spell, items[i].value));
    hide Load, Dump, Serialisable, LooseEq, Again, Whole, WellFormed;
    AllKeysAreStrings(canon, items);
    KeysComeBack(canon, items, i);
    ValueComesBack(canon, items, i);
  }

  lemma ValueComesBack(canon: seq<Item>, items: seq<Item>, i: nat)
    requires Returned(canon, items) && i < |items| && WellFormed(Dict(items)) && canon[i].key == items[i].key
    requires forall k :: 0 <= k < |items| ==> items[k].key.Str?
    ensures LooseEq(canon[i].value, items[i].value)
  {
    StringKeysDiffer(items);
    var j := StringFound(canon[i], items);
    assert i == j;
  }

  /** The guard accepts exactly the plain values, and hands on each exactly as it was written. */
  lemma GuardIff(spell: Py -> seq<Unit>, v: Py)
    requires WellFormed(v)
    ensures Accepts(spell, v) <==> Plain(v)
    ensures Accepts(spell, v) ==> Load(Dump(spell, v)) == v
  {
    if Plain(v) {
      PlainComesBack(spell, v);
      LooseEqReflexive(v);
    }
    if Accepts(spell, v) {
      AcceptedIsPlain(spell, v);
    }
  }

  /** A string without tuples and keys that the guard refuses: a surrogate pair written as two escapes. */
  lemma SplitPairRefused(spell: Py -> seq<Unit>)
    ensures Serialisable(Str([0xD83D, 0xDE00])) && !Accepts(spell, Str([0xD83D, 0xDE00]))
  {
    var s: seq<CodePoint> := [0xD83D, 0xDE00];
    assert !Whole(s) by { assert High(s[0]) && Low(s[1]); }
    GuardIff(spell, Str(s));
  }
}

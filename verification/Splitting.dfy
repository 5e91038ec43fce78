/** `str.split` and `str.join` with a separator. */
module Splitting {
  import opened Wrappers

  predicate OccursAt(o: string, t: string, i: nat) { i + |o| <= |t| && t[i..i + |o|] == o }

  /** `o in t`. */
  predicate Contains(o: string, t: string) { exists i :: 0 <= i <= |t| && OccursAt(o, t, i) }

  /** The leftmost occurrence from position `i` on. */
  function FindFrom(o: string, t: string, i: nat): (r: Option<nat>)
    requires i <= |t|
    ensures r.Some? ==> i <= r.value && OccursAt(o, t, r.value) && forall j :: i <= j < r.value ==> !OccursAt(o, t, j)
    ensures r.None? ==> forall j :: i <= j <= |t| ==> !OccursAt(o, t, j)
    decreases |t| - i
  {
    if OccursAt(o, t, i) then Some(i) else if i == |t| then None else FindFrom(o, t, i + 1)
  }

  function Split(o: string, t: string): (parts: seq<string>)
    requires o != []
    ensures parts != []
    decreases |t|
  {
    match FindFrom(o, t, 0)
    case None => [t]
    case Some(i) => [t[..i]] + Split(o, t[i + |o|..])
  }

  function Join(o: string, parts: seq<string>): string
    requires parts != []
  {
    if |parts| == 1 then parts[0] else parts[0] + o + Join(o, parts[1..])
  }

  /** The separator occurs in no part, not even in part across the following separator. */
  ghost predicate Separated(o: string, parts: seq<string>)
    requires o != []
  {
    && parts != []
    && (forall i :: 0 <= i < |parts| - 1 ==> !Contains(o, parts[i] + o[..|o| - 1]))
    && !Contains(o, parts[|parts| - 1])
  }

  lemma SeparatedCons(o: string, part: string, rest: seq<string>)
    requires o != [] && rest != [] && !Contains(o, part + o[..|o| - 1]) && Separated(o, rest)
    ensures Separated(o, [part] + rest)
  {
  }

  lemma {:induction false} SplitSeparates(o: string, t: string)
    requires o != []
    ensures Separated(o, Split(o, t))
    decreases |t|
  {
    var found := FindFrom(o, t, 0);
    if found.Some? {
      var i := found.value;
      SplitSeparates(o, t[i + |o|..]);
      NothingEarlier(o, t, i);
      hide Contains, Separated;
      SeparatedCons(o, t[..i], Split(o, t[i + |o|..]));
    }
  }

  lemma {:induction false} JoinInvertsSplit(o: string, t: string)
    requires o != []
    ensures Join(o, Split(o, t)) == t
    decreases |t|
  {
    var found := FindFrom(o, t, 0);
    if found.Some? {
      var i := found.value;
      var rest := t[i + |o|..];
      JoinInvertsSplit(o, rest);
      assert t == t[..i] + o + rest;
      assert Split(o, t)[1..] == Split(o, rest);
    }
  }

  lemma NothingEarlier(o: string, t: string, i: nat)
    requires o != [] && OccursAt(o, t, i) && forall j :: 0 <= j < i ==> !OccursAt(o, t, j)
    ensures !Contains(o, t[..i] + o[..|o| - 1])
  {
    var front := t[..i] + o[..|o| - 1];
    assert front == t[..i + |o| - 1];
    if Contains(o, front) {
      var j :| 0 <= j <= |front| && OccursAt(o, front, j);
      assert OccursAt(o, t, j);
    }
  }

  /** Splitting undoes joining exactly on separated parts. */
  lemma {:induction false} SplitInvertsJoin(o: string, parts: seq<string>)
    requires o != [] && Separated(o, parts)
    ensures Split(o, Join(o, parts)) == parts
  {
    var t := Join(o, parts);
    if |parts| == 1 {
      assert parts == [parts[0]];
      assert FindFrom(o, t, 0).None?;
    } else {
      var rest := Join(o, parts[1..]);
      SplitInvertsJoin(o, parts[1..]);
      FirstSeparator(o, parts[0], rest);
      assert t[..|parts[0]|] == parts[0] && t[|parts[0]| + |o|..] == rest;
    }
  }

  lemma FirstSeparator(o: string, part: string, rest: string)
    requires o != [] && !Contains(o, part + o[..|o| - 1])
    ensures FindFrom(o, part + o + rest, 0) == Some(|part|)
  {
    var t, front := part + o + rest, part + o[..|o| - 1];
    assert OccursAt(o, t, |part|);
    assert front == t[..|front|];
    assert forall j: nat :: j < |part| ==> OccursAt(o, t, j) == OccursAt(o, front, j);
  }

  /** Where a text occurs does not depend on what stands around it. */
  lemma OccursInside(o: string, a: string, t: string, b: string, i: nat)
    requires i + |o| <= |t|
    ensures OccursAt(o, a + t + b, |a| + i) == OccursAt(o, t, i)
  {
    assert (a + t + b)[|a| + i..|a| + i + |o|] == t[i..i + |o|];
  }

  lemma ContainsInside(o: string, a: string, t: string, b: string)
    requires Contains(o, t)
    ensures Contains(o, a + t + b)
  {
    var i :| 0 <= i <= |t| && OccursAt(o, t, i);
    OccursInside(o, a, t, b, i);
  }

  lemma OccurringChars(o: string, t: string, i: nat)
    requires OccursAt(o, t, i)
    ensures forall k :: i <= k < i + |o| ==> t[k] in o
  {
    assert forall k :: i <= k < i + |o| ==> t[k] == o[k - i];
  }

  /** A text without a quote occurs around a quote only on either side of it. */
  lemma QuoteSeparates(o: string, a: string, b: string)
    requires '"' !in o
    ensures Contains(o, a + "\"" + b) <==> Contains(o, a) || Contains(o, b)
  {
    var t := a + "\"" + b;
    if Contains(o, t) {
      var i :| 0 <= i <= |t| && OccursAt(o, t, i);
      OccurringChars(o, t, i);
      assert t[|a|] == '"';
      if i + |o| <= |a| {
        assert [] + a + ("\"" + b) == t;
        OccursInside(o, [], a, "\"" + b, i);
      } else {
        assert (a + "\"") + b + [] == t;
        OccursInside(o, a + "\"", b, [], i - |a| - 1);
      }
    }
    if Contains(o, a) {
      ContainsInside(o, [], a, "\"" + b);
      assert [] + a + ("\"" + b) == t;
    }
    if Contains(o, b) {
      ContainsInside(o, a + "\"", b, []);
      assert (a + "\"") + b + [] == t;
    }
  }
}

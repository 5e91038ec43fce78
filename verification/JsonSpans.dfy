/** The brace-span scanner of `scripts/eval_envscaler_band.py`. */
module JsonSpans {

  /** The scanner's variables; `start` is -1 when no span is open. */
  datatype State = State(depth: nat, start: int, inString: bool, escaped: bool)

  const OUTSIDE := State(0, -1, false, false)

  /** One character at position `at`. */
  function Step(s: State, at: nat, c: char): State
  {
    if s.inString then
      if s.escaped then s.(escaped := false)
      else if c == '\\' then s.(escaped := true)
      else if c == '"' then s.(inString := false)
      else s
    else if c == '"' then s.(inString := true)
    else if c == '{' then s.(start := if s.depth == 0 then at else s.start, depth := s.depth + 1)
    else if c == '}' then
      if s.depth == 0 then s
      else if s.depth == 1 && s.start >= 0 then s.(depth := 0, start := -1)
      else s.(depth := s.depth - 1)
    else s
  }

  /** Whether the character at `at` completes a span. */
  predicate Completes(s: State, c: char) { !s.inString && c == '}' && s.depth == 1 && s.start >= 0 }

  /** The state after the characters of `text` from position `at` on. */
  function After(s: State, at: nat, text: string): State
  {
    if text == [] then s else Step(After(s, at, text[..|text| - 1]), at + |text| - 1, text[|text| - 1])
  }

  /** The spans completed on the way, as positions from the first brace to just after the last. */
  function Spans(s: State, at: nat, text: string): seq<(int, int)>
  {
    if text == [] then [] else
    var before := text[..|text| - 1];
    var state := After(s, at, before);
    Spans(s, at, before) +
    if Completes(state, text[|text| - 1]) then [(state.start, at + |text|)] else []
  }

  /** A span is open exactly when the depth is positive, and it starts before the current position. */
  ghost predicate Consistent(s: State, at: nat)
  {
    (s.depth > 0 <==> s.start >= 0) && -1 <= s.start < at
  }

  lemma {:induction false} StaysConsistent(s: State, at: nat, text: string)
    requires Consistent(s, at)
    ensures Consistent(After(s, at, text), at + |text|)
  {
    if text != [] {
      StaysConsistent(s, at, text[..|text| - 1]);
    }
  }

  /** The pieces of `text` that the scanner yields. */
  function Pieces(text: string, spans: seq<(int, int)>): seq<string>
    requires forall i :: 0 <= i < |spans| ==> SpanIn(spans[i], text)
  {
    seq(|spans|, i requires 0 <= i < |spans| && SpanIn(spans[i], text) => text[spans[i].0..spans[i].1])
  }

  /** A span lies in the text and goes from an opening to a closing brace. */
  predicate SpanIn(span: (int, int), text: string)
  {
    0 <= span.0 < span.1 <= |text| && text[span.0] == '{' && text[span.1 - 1] == '}'
  }

  ghost predicate EndBy(spans: seq<(int, int)>, at: int)
  {
    forall i :: 0 <= i < |spans| ==> spans[i].1 <= at
  }

  /** The spans lie in the text from left to right without overlapping. */
  ghost predicate InOrder(spans: seq<(int, int)>, text: string)
  {
    && (forall i :: 0 <= i < |spans| ==> SpanIn(spans[i], text))
    && (forall i, j :: 0 <= i < j < |spans| ==> spans[i].1 <= spans[j].0)
  }

  lemma SpansGrow(spans: seq<(int, int)>, text: string, c: char)
    requires InOrder(spans, text)
    ensures InOrder(spans, text + [c]) && EndBy(spans, |text|)
  {
    forall i | 0 <= i < |spans|
      ensures SpanIn(spans[i], text + [c]) && spans[i].1 <= |text|
    {
      assert SpanIn(spans[i], text);
    }
  }

  lemma StepFacts(s: State, at: nat, c: char)
    requires Consistent(s, at)
    ensures Consistent(Step(s, at, c), at + 1)
    ensures Step(s, at, c).start >= 0 ==> Step(s, at, c).start == s.start || (Step(s, at, c).start == at && c == '{')
    ensures Completes(s, c) ==> c == '}' && s.start >= 0 && Step(s, at, c).start == -1
  {
  }

  /** Where the open span starts: at a brace, after all completed spans. */
  ghost predicate OpenOk(s: State, text: string, spans: seq<(int, int)>)
  {
    Consistent(s, |text|) && (s.start >= 0 ==> text[s.start] == '{' && EndBy(spans, s.start))
  }

  lemma {:induction false} SpansInOrder(text: string)
    ensures InOrder(Spans(OUTSIDE, 0, text), text)
    ensures OpenOk(After(OUTSIDE, 0, text), text, Spans(OUTSIDE, 0, text))
  {
    if text != [] {
      var before, c := text[..|text| - 1], text[|text| - 1];
      SpansInOrder(before);
      var s, spans := After(OUTSIDE, 0, before), Spans(OUTSIDE, 0, before);
      SpansGrow(spans, before, c);
      assert text == before + [c];
      StepFacts(s, |before|, c);
      hide Step, Completes, InOrder;
      assert s.start >= 0 ==> text[s.start] == before[s.start];
      if Completes(s, c) {
        hide EndBy;
        SpansAdd(spans, text, (s.start, |text|));
      }
    }
  }

  lemma SpansAdd(spans: seq<(int, int)>, text: string, span: (int, int))
    requires InOrder(spans, text) && SpanIn(span, text) && EndBy(spans, span.0)
    ensures InOrder(spans + [span], text)
  {
  }

  function SpansOf(text: string): (spans: seq<(int, int)>)
    ensures InOrder(spans, text)
  {
    SpansInOrder(text);
    Spans(OUTSIDE, 0, text)
  }

  /** The texts that `_iter_json_spans` yields. */
  function Yielded(text: string): seq<string> { Pieces(text, SpansOf(text)) }

  /** `_iter_json_spans`, collecting what the generator yields. */
  method IterJsonSpans(text: string) returns (spans: seq<string>)
    ensures spans == Yielded(text)
  {
    var depth, start, inString, escaped := 0, -1, false, false;
    spans := [];
    for i := 0 to |text|
      invariant depth >= 0 && State(depth, start, inString, escaped) == After(OUTSIDE, 0, text[..i])
      invariant spans == Yielded(text[..i])
    {
      assert text[..i + 1][..i] == text[..i];
      SpansInOrder(text[..i]);
      var c := text[i];
      YieldStep(text, i);
      if inString {
        if escaped {
          escaped := false;
        } else if c == '\\' {
          escaped := true;
        } else if c == '"' {
          inString := false;
        }
      } else if c == '"' {
        inString := true;
      } else if c == '{' {
        if depth == 0 {
          start := i;
        }
        depth := depth + 1;
      } else if c == '}' {
        depth := depth - 1;
        if depth == 0 && start >= 0 {
          spans := spans + [text[start..i + 1]];
          start := -1;
        } else if depth < 0 {
          depth := 0;
        }
      }
    }
    assert text[..|text|] == text;
  }

  lemma YieldStep(text: string, i: nat)
    requires i < |text|
    ensures var s := After(OUTSIDE, 0, text[..i]);
            && (Completes(s, text[i]) ==> s.start < i)
            && Yielded(text[..i + 1]) == Yielded(text[..i]) + if Completes(s, text[i]) then [text[s.start..i + 1]]
                else []
  {
    var before, after := text[..i], text[..i + 1];
    assert after[..i] == before;
    SpansInOrder(before);
    var spans, s := SpansOf(before), After(OUTSIDE, 0, before);
    forall k | 0 <= k < |spans|
      ensures after[spans[k].0..spans[k].1] == before[spans[k].0..spans[k].1]
    {
      assert SpanIn(spans[k], before);
      assert after == before + [text[i]];
    }
    if Completes(s, text[i]) {
      assert SpansOf(after) == spans + [(s.start, i + 1)];
      assert after[s.start..i + 1] == text[s.start..i + 1];
    } else {
      assert SpansOf(after) == spans;
    }
  }

  // ---------------------------------------------------------------- scanning in parts

  lemma {:induction false} ScanConcat(s: State, at: nat, a: string, b: string)
    ensures After(s, at, a + b) == After(After(s, at, a), at + |a|, b)
    ensures Spans(s, at, a + b) == Spans(s, at, a) + Spans(After(s, at, a), at + |a|, b)
  {
    if b == [] {
      assert a + b == a;
    } else {
      var b', c := b[..|b| - 1], b[|b| - 1];
      ScanConcat(s, at, a, b');
      assert (a + b)[..|a + b| - 1] == a + b' && (a + b)[|a + b| - 1] == c;
      hide Step, Completes;
    }
  }

  function Moved(s: State, d: nat): State { if s.start >= 0 then s.(start := s.start + d) else s }

  function MovedSpans(spans: seq<(int, int)>, d: nat): seq<(int, int)>
  {
    seq(|spans|, i requires 0 <= i < |spans| => (spans[i].0 + d, spans[i].1 + d))
  }

  lemma StepMoves(s: State, at: nat, d: nat, c: char)
    requires -1 <= s.start
    ensures Step(Moved(s, d), at + d, c) == Moved(Step(s, at, c), d) && -1 <= Step(s, at, c).start
    ensures Completes(Moved(s, d), c) == Completes(s, c)
    ensures Completes(s, c) ==> Moved(s, d).start == s.start + d
  {
  }

  /** Scanning does not depend on where the text stands. */
  lemma {:induction false} ScanMoves(s: State, at: nat, d: nat, text: string)
    requires -1 <= s.start
    ensures After(Moved(s, d), at + d, text) == Moved(After(s, at, text), d)
    ensures Spans(Moved(s, d), at + d, text) == MovedSpans(Spans(s, at, text), d)
    ensures -1 <= After(s, at, text).start
  {
    if text != [] {
      var before, c := text[..|text| - 1], text[|text| - 1];
      ScanMoves(s, at, d, before);
      StepMoves(After(s, at, before), at + |before|, d, c);
      hide Step, Completes, Moved;
      assert at + d + |before| == at + |before| + d;
      var state, spans := After(s, at, before), Spans(s, at, before);
      if Completes(state, c) {
        MovedConcat(spans, [(state.start, at + |text|)], d);
      } else {
        assert spans + [] == spans;
      }
    }
  }

  lemma MovedConcat(a: seq<(int, int)>, b: seq<(int, int)>, d: nat)
    ensures MovedSpans(a + b, d) == MovedSpans(a, d) + MovedSpans(b, d)
  {
  }

  lemma {:induction false} UnquotedUnescaped(text: string)
    ensures var s := After(OUTSIDE, 0, text); !s.inString ==> !s.escaped
  {
    if text != [] {
      UnquotedUnescaped(text[..|text| - 1]);
    }
  }

  /** While a span is open the scanner is where it was outside every span, plus the open span. */
  lemma {:induction false} OpenSince(text: string)
    requires After(OUTSIDE, 0, text).start >= 0
    ensures After(OUTSIDE, 0, text).start < |text|
    ensures After(OUTSIDE, 0, text[..After(OUTSIDE, 0, text).start]) == OUTSIDE
    ensures Spans(OUTSIDE, 0, text) == Spans(OUTSIDE, 0, text[..After(OUTSIDE, 0, text).start])
  {
    if text != [] {
      var before, c := text[..|text| - 1], text[|text| - 1];
      var s := After(OUTSIDE, 0, before);
      SpansInOrder(before);
      UnquotedUnescaped(before);
      if s.start >= 0 {
        OpenSince(before);
        assert text[..s.start] == before[..s.start];
      }
    }
  }

  lemma LastStep(before: string, c: char)
    ensures After(OUTSIDE, 0, before + [c]) == Step(After(OUTSIDE, 0, before), |before|, c)
    ensures Spans(OUTSIDE, 0, before + [c]) == Spans(OUTSIDE, 0, before) +
              if Completes(After(OUTSIDE, 0, before), c) then [(After(OUTSIDE, 0, before).start, |before| + 1)] else []
  {
    assert (before + [c])[..|before|] == before;
    hide Step, Completes;
  }

  /** The span that a character completes is complete by itself. */
  lemma LastSpanAlone(before: string, c: char, start: int)
    requires Completes(After(OUTSIDE, 0, before), c) && start == After(OUTSIDE, 0, before).start
    ensures 0 <= start < |before|
    ensures Spans(OUTSIDE, 0, before[start..] + [c]) == [(0, |before| + 1 - start)]
    ensures After(OUTSIDE, 0, before[start..] + [c]) == OUTSIDE
  {
    hide After, Spans;
    LastStep(before, c);
    UnquotedUnescaped(before);
    assert Step(After(OUTSIDE, 0, before), |before|, c) == OUTSIDE;
    hide Step, Completes;
    OpenSince(before);
    var front, piece := before[..start], before[start..] + [c];
    assert before + [c] == front + piece;
    TailAlone(front, piece);
  }

  lemma TailAlone(front: string, piece: string)
    requires After(OUTSIDE, 0, front) == OUTSIDE && After(OUTSIDE, 0, front + piece) == OUTSIDE
    requires Spans(OUTSIDE, 0, front + piece) == Spans(OUTSIDE, 0, front) + [(|front|, |front + piece|)]
    ensures Spans(OUTSIDE, 0, piece) == [(0, |piece|)] && After(OUTSIDE, 0, piece) == OUTSIDE
  {
    hide After, Spans;
    var d := |front|;
    ScanConcat(OUTSIDE, 0, front, piece);
    ScanMoves(OUTSIDE, 0, d, piece);
    assert Moved(OUTSIDE, d) == OUTSIDE;
    Cancel(Spans(OUTSIDE, 0, front), Spans(OUTSIDE, d, piece), [(d, |front + piece|)]);
    var spans := Spans(OUTSIDE, 0, piece);
    assert |MovedSpans(spans, d)| == 1;
    assert MovedSpans(spans, d)[0] == (spans[0].0 + d, spans[0].1 + d);
  }

  lemma Cancel<T>(x: seq<T>, a: seq<T>, b: seq<T>)
    requires x + a == x + b
    ensures a == b
  {
    assert a == (x + a)[|x|..] && b == (x + b)[|x|..];
  }

  lemma EndSlice(before: string, c: char, lo: nat)
    requires lo <= |before|
    ensures (before + [c])[lo..|before| + 1] == before[lo..] + [c]
  {
  }

  lemma InnerSlice(before: string, c: char, lo: nat, hi: nat)
    requires lo <= hi <= |before|
    ensures (before + [c])[lo..hi] == before[lo..hi]
  {
  }

  /** The span is complete by itself. */
  ghost predicate Alone(text: string, span: (int, int))
  {
    && SpanIn(span, text)
    && Spans(OUTSIDE, 0, text[span.0..span.1]) == [(0, span.1 - span.0)]
    && After(OUTSIDE, 0, text[span.0..span.1]) == OUTSIDE
  }

  lemma AloneGrows(before: string, c: char, span: (int, int))
    requires Alone(before, span)
    ensures Alone(before + [c], span)
  {
    hide After, Spans;
    InnerSlice(before, c, span.0, span.1);
  }

  lemma CompletedBraces(before: string, c: char)
    requires Completes(After(OUTSIDE, 0, before), c)
    ensures var start := After(OUTSIDE, 0, before).start; c == '}' && 0 <= start < |before| && before[start] == '{'
  {
    hide After, Spans, InOrder;
    SpansInOrder(before);
  }

  lemma AloneFrom(before: string, c: char, start: int)
    requires 0 <= start < |before| && before[start] == '{' && c == '}'
    requires Spans(OUTSIDE, 0, before[start..] + [c]) == [(0, |before| + 1 - start)]
    requires After(OUTSIDE, 0, before[start..] + [c]) == OUTSIDE
    ensures Alone(before + [c], (start, |before| + 1))
  {
    hide After, Spans;
    EndSlice(before, c, start);
  }

  lemma LastIsAlone(before: string, c: char)
    requires Completes(After(OUTSIDE, 0, before), c)
    ensures Alone(before + [c], (After(OUTSIDE, 0, before).start, |before| + 1))
  {
    hide *;
    CompletedBraces(before, c);
    LastSpanAlone(before, c, After(OUTSIDE, 0, before).start);
    AloneFrom(before, c, After(OUTSIDE, 0, before).start);
  }

  /** Every yielded span starts outside all others and is complete by itself. */
  lemma {:induction false} SpanAlone(text: string, i: nat)
    requires i < |Spans(OUTSIDE, 0, text)|
    ensures Alone(text, Spans(OUTSIDE, 0, text)[i])
  {
    assert text != [];
    hide After, Spans, Step, Completes, Alone;
    var before, c := text[..|text| - 1], text[|text| - 1];
    assert text == before + [c];
    LastStep(before, c);
    var spans := Spans(OUTSIDE, 0, before);
    if i < |spans| {
      SpanAlone(before, i);
      AloneGrows(before, c, spans[i]);
    } else {
      LastIsAlone(before, c);
    }
  }

  /** Rescanning any yielded span yields exactly that span. */
  lemma RescanYieldsItself(text: string, i: nat)
    requires i < |Yielded(text)|
    ensures Yielded(Yielded(text)[i]) == [Yielded(text)[i]]
  {
    SpanAlone(text, i);
    var span := SpansOf(text)[i];
    var piece := text[span.0..span.1];
    assert piece[0..|piece|] == piece;
  }

  // ---------------------------------------------------------------- balance, without the scanner

  /** Whether a position is inside a string literal, and after a backslash in it. */
  function Quoting(text: string): (bool, bool)
  {
    if text == [] then (false, false) else
    var (quoted, escaped) := Quoting(text[..|text| - 1]);
    var c := text[|text| - 1];
    if !quoted then (c == '"', false)
    else if escaped then (true, false)
    else (c != '"', c == '\\')
  }

  /** Opening minus closing braces outside string literals. */
  function Level(text: string): int
  {
    if text == [] then 0 else
    var before, c := text[..|text| - 1], text[|text| - 1];
    Level(before) + if Quoting(before).0 then 0 else if c == '{' then 1 else if c == '}' then -1 else 0
  }

  /** Every proper beginning leaves a brace open, and the whole text leaves none and no open string. */
  ghost predicate Balanced(text: string)
  {
    && Level(text) == 0 && !Quoting(text).0
    && forall k :: 0 < k < |text| ==> Level(text[..k]) > 0
  }

  lemma {:induction false} QuotingAgrees(text: string)
    ensures var s := After(OUTSIDE, 0, text); Quoting(text) == (s.inString, s.escaped)
  {
    if text != [] {
      QuotingAgrees(text[..|text| - 1]);
    }
  }

  /** No span ends before the only one does. */
  lemma NoneBefore(text: string, k: nat)
    requires Spans(OUTSIDE, 0, text) == [(0, |text|)] && k < |text|
    ensures Spans(OUTSIDE, 0, text[..k]) == []
  {
    hide After, Spans;
    var spans := Spans(OUTSIDE, 0, text[..k]);
    SpansInOrder(text[..k]);
    forall span | span in spans
      ensures span.1 <= k
    {
      var i :| 0 <= i < |spans| && spans[i] == span;
      assert SpanIn(spans[i], text[..k]);
    }
    hide InOrder, OpenOk;
    assert text == text[..k] + text[k..];
    ScanConcat(OUTSIDE, 0, text[..k], text[k..]);
    EmptyFront(spans, Spans(After(OUTSIDE, 0, text[..k]), k, text[k..]), (0, |text|), k);
  }

  lemma EmptyFront(xs: seq<(int, int)>, ys: seq<(int, int)>, e: (int, int), k: int)
    requires xs + ys == [e] && k < e.1 && forall x :: x in xs ==> x.1 <= k
    ensures xs == []
  {
    assert forall x :: x in xs ==> x in xs + ys;
    HasHead(xs);
  }

  lemma HasHead<T>(xs: seq<T>)
    ensures xs == [] || xs[0] in xs
  {
  }

  lemma {:induction false} OneSpanStaysOpen(text: string, k: nat)
    requires Spans(OUTSIDE, 0, text) == [(0, |text|)] && 0 < k < |text|
    ensures After(OUTSIDE, 0, text[..k]).start == 0
  {
    SpansInOrder(text);
    var before := text[..k - 1];
    assert text[..k][..k - 1] == before && text[..k][k - 1] == text[k - 1];
    if k == 1 {
      assert SpanIn((0, |text|), text) by { assert SpanIn(Spans(OUTSIDE, 0, text)[0], text); }
    } else {
      OneSpanStaysOpen(text, k - 1);
      SpansInOrder(before);
      NoneBefore(text, k);
    }
  }

  lemma {:induction false} OneSpanLevels(text: string, k: nat)
    requires Spans(OUTSIDE, 0, text) == [(0, |text|)] && k < |text|
    ensures Level(text[..k]) == After(OUTSIDE, 0, text[..k]).depth
    ensures k > 0 ==> Level(text[..k]) > 0
  {
    if k > 0 {
      var before := text[..k - 1];
      assert text[..k][..k - 1] == before;
      OneSpanLevels(text, k - 1);
      QuotingAgrees(before);
      OneSpanStaysOpen(text, k);
      SpansInOrder(text[..k]);
      SpansInOrder(before);
    }
  }

  /** Each yielded text is balanced by itself. */
  lemma YieldedIsBalanced(text: string, i: nat)
    requires i < |Yielded(text)|
    ensures Balanced(Yielded(text)[i])
  {
    SpanAlone(text, i);
    var span := SpansOf(text)[i];
    var piece := text[span.0..span.1];
    OneSpanBalanced(piece);
  }

  lemma OneSpanBalanced(text: string)
    requires text != [] && Spans(OUTSIDE, 0, text) == [(0, |text|)] && After(OUTSIDE, 0, text) == OUTSIDE
    ensures Balanced(text)
  {
    forall k | 0 < k < |text|
      ensures Level(text[..k]) > 0
    {
      OneSpanLevels(text, k);
    }
    var before := text[..|text| - 1];
    OneSpanLevels(text, |text| - 1);
    QuotingAgrees(before);
    QuotingAgrees(text);
    SpansInOrder(before);
    NoneBefore(text, |text| - 1);
    assert Completes(After(OUTSIDE, 0, before), text[|text| - 1]);
  }
}

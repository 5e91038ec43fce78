/** The numbered checkpoint history: `source_checkpoint_number` of `scripts/prepare_v5_fill_checkpoint.py`. */
module CheckpointHistory {
  import opened Wrappers

  datatype Numbered = Numbered(id: string, title: string)

  /** The numbers that the titles announce, in list order. */
  function Numbers(numberOf: string -> Option<nat>, commits: seq<Numbered>): seq<nat>
  {
    if commits == [] then [] else
    (if numberOf(commits[0].title).Some? then [numberOf(commits[0].title).value] else [])
        + Numbers(numberOf, commits[1..])
  }

  function Max(s: seq<nat>): nat
    requires s != []
  {
    if |s| == 1 || s[0] >= Max(s[1..]) then s[0] else Max(s[1..])
  }

  function Count(s: seq<nat>, n: nat): nat
  {
    if s == [] then 0 else (if s[0] == n then 1 else 0) + Count(s[1..], n)
  }

  /** Newest commit first: the number of the head, if the head is `revision` and its number is the largest in
      the history and occurs once. */
  function SourceNumber(numberOf: string -> Option<nat>, commits: seq<Numbered>, revision: string): Result<nat>
  {
    if commits == [] || commits[0].id != revision then Err("head")
    else if numberOf(commits[0].title).None? then Err("title")
    else
      var number, numbers := numberOf(commits[0].title).value, Numbers(numberOf, commits);
      if Max(numbers) != number then Err("behind")
      else if Count(numbers, number) != 1 then Err("rebound")
      else Ok(number)
  }

  lemma {:induction false} MaxIsBound(s: seq<nat>)
    requires s != []
    ensures Max(s) in s && forall n :: n in s ==> n <= Max(s)
  {
    if |s| > 1 {
      MaxIsBound(s[1..]);
      assert s == [s[0]] + s[1..];
    }
  }

  lemma {:induction false} CountZero(s: seq<nat>, n: nat)
    ensures Count(s, n) == 0 <==> n !in s
  {
    if s != [] {
      CountZero(s[1..], n);
      assert s == [s[0]] + s[1..];
    }
  }

  lemma {:induction false} NumbersOf(numberOf: string -> Option<nat>, commits: seq<Numbered>)
    ensures forall n :: n in Numbers(numberOf, commits) <==> exists c :: c in commits && numberOf(c.title) == Some(n)
  {
    if commits != [] {
      NumbersOf(numberOf, commits[1..]);
      assert commits == [commits[0]] + commits[1..];
    }
  }

  /** Accepted exactly when the head carries a number above every other number in the history. */
  lemma SourceNumberIsStrictMaximum(numberOf: string -> Option<nat>, commits: seq<Numbered>, revision: string, n: nat)
    ensures SourceNumber(numberOf, commits, revision) == Ok(n) <==>
              && commits != [] && commits[0].id == revision
              && numberOf(commits[0].title) == Some(n)
              && forall c, k :: c in commits[1..] && numberOf(c.title) == Some(k) ==> k < n
  {
    if commits != [] && commits[0].id == revision && numberOf(commits[0].title) == Some(n) {
      var numbers, rest := Numbers(numberOf, commits), Numbers(numberOf, commits[1..]);
      assert numbers == [n] + rest && numbers[1..] == rest;
      NumbersOf(numberOf, commits[1..]);
      MaxIsBound(numbers);
      CountZero(rest, n);
      assert forall k :: k in rest ==> k in numbers;
      assert forall k :: k in numbers ==> k == n || k in rest;
    }
  }
}

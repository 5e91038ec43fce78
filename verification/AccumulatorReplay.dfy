/** The balanced training accumulator (`reliquary/validator/training_accumulator.py`) and its reconstruction
    from window archives (`scripts/replay_training_recovery.py`). */
module AccumulatorReplay {
  import opened Wrappers
  import Orders

  /** One group of rollouts. Only its environment matters here; `body` stands for the rest of it. */
  datatype Group = Group(env: string, body: int)

  /** The counts of a JSON object, as its keys and values. */
  type Counts = map<string, int>

  /** The snapshot inside the metadata; `order` is the key order of `targets`. */
  datatype Snapshot = Snapshot(revision: string, order: seq<string>, targets: Counts, counts: Counts)

  datatype Meta = Meta(reset: bool, countsBefore: Counts, added: Counts, snapshot: Option<Snapshot>)

  /** A window archive. `meta` is `None` when the archive predates the accumulator. */
  datatype Archive = Archive(start: int, batch: seq<Group>, meta: Option<Meta>)

  /** What is returned: for each environment in order its groups, cut to the target, and how many were retained. */
  datatype Rebuilt = Rebuilt(
    order: seq<string>, batches: seq<seq<Group>>, counts: seq<nat>, revision: string, targets: Counts,
        windows: seq<int>)

  function OfEnv(batch: seq<Group>, env: string): seq<Group>
  {
    if batch == [] then [] else (if batch[0].env == env then [batch[0]] else []) + OfEnv(batch[1..], env)
  }

  /** Python's `s[:n]`, which counts from the end for a negative `n`. */
  function Slice<T>(s: seq<T>, n: int): seq<T>
  {
    if n >= |s| then s else if n >= 0 then s[..n] else if |s| + n >= 0 then s[..|s| + n] else []
  }

  // ---------------------------------------------------------------- replay

  type Retained = map<string, seq<Group>>

  function Held(retained: Retained, env: string): seq<Group>
  {
    if env in retained then retained[env] else []
  }

  datatype Replay = Replay(
    retained: Retained, revision: Option<string>, order: seq<string>, targets: Counts, windows: seq<int>)

  const EMPTY := Replay(map[], None, [], map[], [])

  predicate CountsMatch(retained: Retained, counts: Counts)
  {
    forall env :: env in counts ==> |Held(retained, env)| == counts[env]
  }

  /** What is left of the retained groups when an archive of `revision` arrives: nothing after a reset or a
      change of revision, and a list for every target in any case. */
  function Opened(retained: Retained, revision: Option<string>, meta: Meta, snapshot: Snapshot): Retained
  {
    var kept := if meta.reset || (revision.Some? && revision.value != snapshot.revision) then map[] else retained;
    map env | env in kept.Keys + snapshot.targets.Keys :: Held(kept, env)
  }

  predicate Supplies(retained: Retained, batch: seq<Group>, added: Counts)
  {
    forall env :: env in added ==> |OfEnv(batch, env)| >= added[env] && env in retained
  }

  function Extended(retained: Retained, batch: seq<Group>, added: Counts): Retained
  {
    map env | env in retained ::
      if env in added then retained[env] + Slice(OfEnv(batch, env), added[env]) else retained[env]
  }

  /** The body of the loop over archives. */
  function Absorb(s: Replay, a: Archive): Result<Replay>
  {
    if a.meta.None? || a.meta.value.snapshot.None? then Err("metadata") else
    var meta, snapshot := a.meta.value, a.meta.value.snapshot.value;
    if snapshot.revision == "" then Err("revision") else
    var kept := Opened(s.retained, s.revision, meta, snapshot);
    if !CountsMatch(kept, meta.countsBefore) then Err("missing")
    else if !Supplies(kept, a.batch, meta.added) then Err("batch")
    else
      var retained := Extended(kept, a.batch, meta.added);
      if !CountsMatch(retained, snapshot.counts) then Err("mismatch")
      else Ok(Replay(retained, Some(snapshot.revision), snapshot.order, snapshot.targets, s.windows + [a.start]))
  }

  function AbsorbAll(archives: seq<Archive>): Result<Replay>
  {
    if archives == [] then Ok(EMPTY) else
    match AbsorbAll(archives[..|archives| - 1])
    case Err(e) => Err(e)
    case Ok(s) => Absorb(s, archives[|archives| - 1])
  }

  predicate Ready(s: Replay)
  {
    s.targets != map[] && forall env :: env in s.targets ==> |Held(s.retained, env)| >= s.targets[env]
  }

  function StartLe(a: Archive, b: Archive): bool { a.start <= b.start }

  function Cut(retained: Retained, order: seq<string>, targets: Counts): seq<seq<Group>>
  {
    seq(|order|, i requires 0 <= i < |order| =>
      Slice(Held(retained, order[i]), if order[i] in targets then targets[order[i]] else 0))
  }

  function RetainedCounts(retained: Retained, order: seq<string>): seq<nat>
  {
    seq(|order|, i requires 0 <= i < |order| => |Held(retained, order[i])|)
  }

  /** The accumulator path of `reconstruct_balanced_batch`. Archives without metadata belong to its legacy
      path, which this model refuses. */
  function Reconstruction(archives: seq<Archive>): Result<Rebuilt>
  {
    match AbsorbAll(Orders.Sort(archives, StartLe))
    case Err(e) => Err(e)
    case Ok(s) => Finish(s)
  }

  function Finish(s: Replay): Result<Rebuilt>
  {
    if !Ready(s) then Err("not ready")
    else Ok(Rebuilt(s.order, Cut(s.retained, s.order, s.targets), RetainedCounts(s.retained, s.order),
                    RevisionOf(s.revision), s.targets, s.windows))
  }

  function RevisionOf(revision: Option<string>): string { if revision.Some? then revision.value else "" }

  /** `reconstruct_balanced_batch`, with the variables that it updates archive by archive. */
  method Reconstruct(archives: seq<Archive>) returns (r: Result<Rebuilt>)
    ensures r == Reconstruction(archives)
  {
    var ordered := Orders.Sort(archives, StartLe);
    var retained: Retained := map[];
    var revision: Option<string> := None;
    var order: seq<string>, targets: Counts := [], map[];
    var windows: seq<int> := [];
    for i := 0 to |ordered|
      invariant AbsorbAll(ordered[..i]) == Ok(Replay(retained, revision, order, targets, windows))
    {
      assert ordered[..i + 1][..i] == ordered[..i];
      var archive := ordered[i];
      if AbsorbAll(ordered[..i + 1]).Err? {
        RefusalStays(ordered, i + 1);
      }
      if archive.meta.None? || archive.meta.value.snapshot.None? {
        return Err("metadata");
      }
      var meta, snapshot := archive.meta.value, archive.meta.value.snapshot.value;
      if snapshot.revision == "" {
        return Err("revision");
      }
      retained := Opened(retained, revision, meta, snapshot);
      revision := Some(snapshot.revision);
      order, targets := snapshot.order, snapshot.targets;
      if !CountsMatch(retained, meta.countsBefore) {
        return Err("missing");
      }
      if !Supplies(retained, archive.batch, meta.added) {
        return Err("batch");
      }
      retained := Extended(retained, archive.batch, meta.added);
      if !CountsMatch(retained, snapshot.counts) {
        return Err("mismatch");
      }
      windows := windows + [archive.start];
    }
    assert ordered[..|ordered|] == ordered;
    if !Ready(Replay(retained, revision, order, targets, windows)) {
      return Err("not ready");
    }
    return Ok(Rebuilt(order, Cut(retained, order, targets), RetainedCounts(retained, order),
                      RevisionOf(revision), targets, windows));
  }

  lemma AbsorbOneMore(archives: seq<Archive>, a: Archive)
    ensures AbsorbAll(archives).Ok? ==> AbsorbAll(archives + [a]) == Absorb(AbsorbAll(archives).value, a)
  {
    assert (archives + [a])[..|archives|] == archives;
    hide Absorb;
  }

  /** A refused prefix refuses the whole list, for the same reason. */
  lemma {:induction false} RefusalStays(archives: seq<Archive>, n: nat)
    requires n <= |archives| && AbsorbAll(archives[..n]).Err?
    ensures AbsorbAll(archives) == AbsorbAll(archives[..n])
    decreases |archives|
  {
    if n == |archives| {
      assert archives[..n] == archives;
    } else {
      var rest := archives[..|archives| - 1];
      assert rest[..n] == archives[..n];
      RefusalStays(rest, n);
    }
  }

  // ---------------------------------------------------------------- what every success means

  /** The key order of a snapshot's targets lists its targets. */
  ghost predicate Ordered(a: Archive)
  {
    a.meta.Some? && a.meta.value.snapshot.Some? ==>
      forall env :: env in a.meta.value.snapshot.value.order <==> env in a.meta.value.snapshot.value.targets
  }

  /** `g` was archived for this environment under this revision. */
  ghost predicate Sourced(archives: seq<Archive>, env: string, revision: Option<string>, g: Group)
  {
    && g.env == env
    && exists a :: && a in archives && g in a.batch
                   && a.meta.Some? && a.meta.value.snapshot.Some?
                   && Some(a.meta.value.snapshot.value.revision) == revision
  }

  ghost predicate AllSourced(archives: seq<Archive>, s: Replay)
  {
    && (forall env, g :: env in s.retained && g in s.retained[env] ==> Sourced(archives, env, s.revision, g))
    && (forall env :: env in s.order <==> env in s.targets)
    && (archives != [] ==> s.revision.Some?) && (s.revision.None? ==> s.retained == map[])
  }

  lemma {:induction false} OfEnvFacts(batch: seq<Group>, env: string)
    ensures forall g :: g in OfEnv(batch, env) ==> g in batch && g.env == env
  {
    if batch != [] {
      OfEnvFacts(batch[1..], env);
      assert batch == [batch[0]] + batch[1..];
    }
  }

  lemma SliceFacts<T>(s: seq<T>, n: int)
    ensures forall x :: x in Slice(s, n) ==> x in s
    ensures n <= |s| ==> |Slice(s, n)| == if n >= 0 then n else if |s| + n >= 0 then |s| + n else 0
  {
  }

  lemma {:induction false} AbsorbedSourced(archives: seq<Archive>)
    requires AbsorbAll(archives).Ok? && forall a :: a in archives ==> Ordered(a)
    ensures AllSourced(archives, AbsorbAll(archives).value)
  {
    if archives != [] {
      var rest, last := archives[..|archives| - 1], archives[|archives| - 1];
      assert archives == rest + [last];
      AbsorbedSourced(rest);
      var s, s' := AbsorbAll(rest).value, AbsorbAll(archives).value;
      assert Ordered(last) && s' == Absorb(s, last).value;
      AbsorbedShape(s, last);
      hide Absorb, AbsorbAll, Ordered;
      forall env, g | env in s'.retained && g in s'.retained[env]
        ensures Sourced(archives, env, s'.revision, g)
      {
        AbsorbedFrom(s, last, env, g);
        if g in last.batch && g.env == env {
          assert last in archives;
        } else {
          assert Sourced(rest, env, s.revision, g);
        }
      }
    }
  }

  lemma AbsorbedShape(s: Replay, a: Archive)
    requires Absorb(s, a).Ok? && Ordered(a)
    ensures var s' := Absorb(s, a).value;
            && (forall env :: env in s'.order <==> env in s'.targets)
            && a.meta.Some? && a.meta.value.snapshot.Some?
            && s'.revision == Some(a.meta.value.snapshot.value.revision)
  {
  }

  /** After one archive a retained group is from its batch, or was retained before under the same revision. */
  lemma AbsorbedFrom(s: Replay, a: Archive, env: string, g: Group)
    requires Absorb(s, a).Ok?
    requires env in Absorb(s, a).value.retained && g in Absorb(s, a).value.retained[env]
    ensures (g in a.batch && g.env == env) ||
            (env in s.retained && g in s.retained[env]
                && (s.revision.Some? ==> s.revision == Absorb(s, a).value.revision))
  {
    OfEnvFacts(a.batch, env);
    SliceFacts(OfEnv(a.batch, env), if env in a.meta.value.added then a.meta.value.added[env] else 0);
  }

  /** A successful reconstruction gives, for every environment in order, groups of that environment only, all
      archived under the returned revision. It gives exactly as many as the target says, of at least as many that it
      reports as retained; a negative target takes that many away from those reported. */
  lemma ReconstructionSound(archives: seq<Archive>, i: nat)
    requires Reconstruction(archives).Ok? && forall a :: a in archives ==> Ordered(a)
    requires i < |Reconstruction(archives).value.order|
    ensures var r := Reconstruction(archives).value;
            && |r.batches| == |r.order| && r.order[i] in r.targets
            && |r.counts| == |r.order| && r.counts[i] >= r.targets[r.order[i]]
            && var target := r.targets[r.order[i]];
            && |r.batches[i]| == (if target >= 0 then target
                                  else if r.counts[i] + target >= 0 then r.counts[i] + target
                                  else 0)
            && forall g :: g in r.batches[i] ==> Sourced(archives, r.order[i], Some(r.revision), g)
  {
    var ordered := Orders.Sort(archives, StartLe);
    Orders.SortPermutes(archives, StartLe);
    AbsorbedSourced(ordered);
    var s := AbsorbAll(ordered).value;
    var env := s.order[i];
    assert env in s.order && env in s.targets;
    assert ordered != [];
    SliceFacts(Held(s.retained, env), s.targets[env]);
    var r := Reconstruction(archives).value;
    forall g | g in r.batches[i]
      ensures Sourced(archives, env, Some(r.revision), g)
    {
      assert Sourced(ordered, env, s.revision, g);
    }
  }

  /** An archive with one group, whose snapshot names a target of minus one. */
  const NEGATIVE := Archive(1, [Group("e", 0)],
                            Some(Meta(false, map["e" := 0], map["e" := 1],
                                      Some(Snapshot("r", ["e"], map["e" := -1], map["e" := 1])))))

  const NEGATIVE_REPLAY := Replay(map["e" := [Group("e", 0)]], Some("r"), ["e"], map["e" := -1], [1])

  lemma NegativeAbsorbed()
    ensures Absorb(EMPTY, NEGATIVE) == Ok(NEGATIVE_REPLAY)
  {
    var g, meta := Group("e", 0), NEGATIVE.meta.value;
    assert OfEnv([g], "e") == [g] by { assert [g][1..] == []; }
    var kept := Opened(map[], None, meta, meta.snapshot.value);
    assert kept == map["e" := []];
    assert Slice([g], 1) == [g] && [] + [g] == [g];
    hide OfEnv, Opened, Slice;
    assert Extended(kept, [g], map["e" := 1]) == map["e" := [g]];
    assert CountsMatch(kept, meta.countsBefore) && Supplies(kept, [g], meta.added);
    assert EMPTY.windows + [NEGATIVE.start] == [1];
  }

  /** With a negative target a reconstruction succeeds, reports one group, and returns none. */
  lemma NegativeTargetLosesGroups()
    ensures Reconstruction([NEGATIVE]) == Ok(Rebuilt(["e"], [[]], [1], "r", map["e" := -1], [1]))
  {
    NegativeAbsorbed();
    assert [NEGATIVE][1..] == [] && [NEGATIVE][..0] == [];
    assert Orders.Sort([NEGATIVE], StartLe) == [NEGATIVE];
    hide Absorb;
    assert AbsorbAll([NEGATIVE]) == Ok(NEGATIVE_REPLAY);
    hide AbsorbAll;
    var s := NEGATIVE_REPLAY;
    assert Cut(s.retained, s.order, s.targets) == [[]] && RetainedCounts(s.retained, s.order) == [1];
  }
}

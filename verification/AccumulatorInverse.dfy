/** Replaying the archives of a live accumulator gives back what it held, and notices a missing archive. */
module AccumulatorInverse {
  import opened Wrappers
  import opened AccumulatorReplay
  import opened AccumulatorProducer
  import Orders

  lemma {:induction false} ArchiveAt(t: Targets, windows: seq<Window>, i: nat)
    requires i < |windows|
    ensures Archives(t, windows)[i] == ArchiveOf(t, LiveAfter(t, windows[..i]), windows[i])
  {
    var rest := windows[..|windows| - 1];
    if i < |rest| {
      ArchiveAt(t, rest, i);
      assert rest[..i] == windows[..i];
    }
  }

  /** Archives with distinct starts sort back into production order. */
  lemma SortRestores(kept: seq<Archive>, given: seq<Archive>)
    requires multiset(given) == multiset(kept)
    requires forall i, j :: 0 <= i < j < |kept| ==> kept[i].start < kept[j].start
    ensures Orders.Sort(given, StartLe) == kept
  {
    Orders.SameElements(given, kept);
    forall a, b | a in given && b in given && StartLe(a, b) && StartLe(b, a)
      ensures a == b
    {
      var i :| 0 <= i < |kept| && kept[i] == a;
      var j :| 0 <= j < |kept| && kept[j] == b;
      assert i == j;
    }
    assert Orders.TotalPreorder(StartLe);
    Orders.SortForgetsOrder(given, kept, StartLe);
    Orders.SortFixesSorted(kept, StartLe);
  }

  lemma ArchivesAscend(t: Targets, windows: seq<Window>)
    requires HistoryOk(windows)
    ensures forall i, j :: 0 <= i < j < |windows| ==> Archives(t, windows)[i].start < Archives(t, windows)[j].start
  {
    forall i, j | 0 <= i < j < |windows|
      ensures Archives(t, windows)[i].start < Archives(t, windows)[j].start
    {
      ArchiveAt(t, windows, i);
      ArchiveAt(t, windows, j);
    }
  }

  /** The accumulator never holds more than its targets. */
  lemma {:induction false} LiveBounded(t: Targets, windows: seq<Window>, env: string)
    requires env in t.of
    ensures |Held(LiveAfter(t, windows).groups, env)| <= t.of[env]
  {
    if windows != [] {
      LiveBounded(t, windows[..|windows| - 1], env);
    }
  }

  function HeldInOrder(t: Targets, live: Live): seq<seq<Group>>
  {
    seq(|t.order|, i requires 0 <= i < |t.order| => Held(live.groups, t.order[i]))
  }

  function HeldCounts(t: Targets, live: Live): seq<nat>
  {
    seq(|t.order|, i requires 0 <= i < |t.order| => |Held(live.groups, t.order[i])|)
  }

  /** What a reconstruction of the accumulator's contents returns. */
  function RebuiltFrom(t: Targets, live: Live, windows: seq<int>): Rebuilt
  {
    Rebuilt(t.order, HeldInOrder(t, live), HeldCounts(t, live), RevisionOf(live.revision), TargetCounts(t), windows)
  }

  ghost predicate Bounded(t: Targets, live: Live)
  {
    forall env :: env in t.of ==> |Held(live.groups, env)| <= t.of[env]
  }

  lemma MirrorReady(t: Targets, s: Replay, live: Live)
    requires TargetsOk(t) && Mirrors(t, s, live) && live.revision.Some?
    ensures Ready(s) <==> LiveReady(t, live)
  {
    assert t.order[0] in t.of && t.order[0] in s.targets;
    hide TargetsOk, Held;
  }

  lemma MirrorCut(t: Targets, s: Replay, live: Live)
    requires TargetsOk(t) && Mirrors(t, s, live) && live.revision.Some? && LiveReady(t, live)
    requires Bounded(t, live)
    ensures Cut(s.retained, s.order, s.targets) == HeldInOrder(t, live)
    ensures RetainedCounts(s.retained, s.order) == HeldCounts(t, live)
  {
    forall i | 0 <= i < |t.order|
      ensures Cut(s.retained, s.order, s.targets)[i] == HeldInOrder(t, live)[i]
      ensures RetainedCounts(s.retained, s.order)[i] == HeldCounts(t, live)[i]
    {
      var env := t.order[i];
      assert env in t.order && env in t.of;
      assert Held(s.retained, env) == Held(live.groups, env) && |Held(live.groups, env)| == t.of[env];
      hide Held;
    }
  }

  /** What the script returns from a state that mirrors the accumulator: its groups, when it is ready. */
  lemma MirrorOutcome(t: Targets, live: Live, s: Replay)
    requires TargetsOk(t) && live.revision.Some? && Mirrors(t, s, live) && Bounded(t, live)
    ensures Finish(s) == if LiveReady(t, live) then Ok(RebuiltFrom(t, live, s.windows)) else Err("not ready")
  {
    hide Cut, Ready, LiveReady, HeldInOrder, HeldCounts, RetainedCounts, TargetCounts, SameGroups, TargetsOk, Bounded;
    MirrorReady(t, s, live);
    if LiveReady(t, live) {
      MirrorCut(t, s, live);
    }
  }

  lemma AllBounded(t: Targets, windows: seq<Window>)
    ensures Bounded(t, LiveAfter(t, windows))
    ensures windows != [] ==> LiveAfter(t, windows).revision == Some(windows[|windows| - 1].revision)
  {
    forall env | env in t.of
      ensures |Held(LiveAfter(t, windows).groups, env)| <= t.of[env]
    {
      LiveBounded(t, windows, env);
    }
  }

  /** For every list of windows added since the accumulator was last empty, and every order in which their archives are
      given, reconstruction succeeds exactly when the accumulator is ready, and then returns exactly the groups that it
      holds, in order, with its revision, targets and source windows. */
  lemma ReplayInverts(t: Targets, windows: seq<Window>, given: seq<Archive>)
    requires TargetsOk(t) && HistoryOk(windows) && windows != []
    requires multiset(given) == multiset(Archives(t, windows))
    ensures Reconstruction(given).Ok? <==> LiveReady(t, LiveAfter(t, windows))
    ensures Reconstruction(given).Ok? ==>
              Reconstruction(given).value == RebuiltFrom(t, LiveAfter(t, windows), Starts(windows))
  {
    hide AbsorbAll, Archives, LiveAfter, Finish, Mirrors, LiveReady, RebuiltFrom, Starts, Bounded;
    ArchivesAscend(t, windows);
    SortRestores(Archives(t, windows), given);
    HistoryMirrors(t, windows);
    AllBounded(t, windows);
    MirrorOutcome(t, LiveAfter(t, windows), AbsorbAll(Archives(t, windows)).value);
  }

  // ---------------------------------------------------------------- a missing archive

  predicate AddsNothing(t: Targets, live: Live, w: Window)
  {
    forall env :: env in t.of ==> Accepted(t, Before(t, live, w), w, env) == []
  }

  /** With the archive of `w` missing, the next archive leaves the replay with what the accumulator had before
      `w`, unless the revision changed. */
  lemma SkipKeeps(t: Targets, s: Replay, live: Live, w: Window, v: Window)
    requires Mirrors(t, s, live)
    ensures OpenedFor(t, s, After(t, live, w), v).Keys == t.of.Keys
    ensures v.revision == w.revision ==> SameGroups(t, OpenedFor(t, s, After(t, live, w), v), Before(t, live, w))
    ensures v.revision != w.revision ==>
              SameGroups(t, OpenedFor(t, s, After(t, live, w), v), Before(t, After(t, live, w), v))
  {
    hide Filled, CountsOf, AddedBy;
  }

  lemma NextStart(t: Targets, live: Live, w: Window, v: Window, env: string)
    requires v.revision == w.revision && env in t.of
    ensures Held(Before(t, After(t, live, w), v), env)
            == Held(Before(t, live, w), env) + Accepted(t, Before(t, live, w), w, env)
    ensures Before(t, After(t, live, w), v).Keys == t.of.Keys
  {
    hide Accepted;
  }

  /** The next archive finds the groups that the accumulator had, exactly when the revision changed or the
      missing window added nothing. */
  lemma SkipOpens(t: Targets, s: Replay, live: Live, w: Window, v: Window)
    requires TargetsOk(t) && Mirrors(t, s, live)
    ensures var next := After(t, live, w);
            && OpenedFor(t, s, next, v).Keys == t.of.Keys
            && (v.revision != w.revision || AddsNothing(t, live, w) ==>
                  SameGroups(t, OpenedFor(t, s, next, v), Before(t, next, v)))
            && (v.revision == w.revision && !AddsNothing(t, live, w) ==>
                  exists env :: env in t.of && |Held(OpenedFor(t, s, next, v), env)| != |Held(Before(t, next, v), env)|)
  {
    var next, before := After(t, live, w), Before(t, live, w);
    var kept := OpenedFor(t, s, next, v);
    hide Accepted, Before, After, OpenedFor, Mirrors, TargetsOk, Held;
    SkipKeeps(t, s, live, w, v);
    if v.revision == w.revision {
      forall env | env in t.of
        ensures Held(Before(t, next, v), env) == Held(kept, env) + Accepted(t, before, w, env)
        ensures Before(t, next, v).Keys == t.of.Keys
      {
        NextStart(t, live, w, v, env);
      }
      if AddsNothing(t, live, w) {
        assert forall env :: env in t.of ==> Held(kept, env) + [] == Held(kept, env);
        KeysKept(t, live, w, v);
      } else {
        var env :| env in t.of && Accepted(t, before, w, env) != [];
        assert |Held(kept, env)| != |Held(Before(t, next, v), env)|;
      }
    }
  }

  lemma KeysKept(t: Targets, live: Live, w: Window, v: Window)
    ensures Before(t, After(t, live, w), v).Keys == t.of.Keys
  {
    hide Accepted;
  }

  lemma CountsDiffer(t: Targets, opened': Retained, before: Retained)
    requires exists env :: env in t.of && |Held(opened', env)| != |Held(before, env)|
    ensures !CountsMatch(opened', CountsOf(t, before))
  {
    var env :| env in t.of && |Held(opened', env)| != |Held(before, env)|;
    assert CountsOf(t, before)[env] == |Held(before, env)|;
  }

  lemma SkipRefused(t: Targets, s: Replay, live: Live, v: Window)
    requires exists env :: env in t.of && |Held(OpenedFor(t, s, live, v), env)| != |Held(Before(t, live, v), env)|
    ensures Absorb(s, ArchiveOf(t, live, v)).Err?
  {
    hide Opened, Filled, AddedBy, TargetCounts, Before;
    CountsDiffer(t, OpenedFor(t, s, live, v), Before(t, live, v));
    hide CountsMatch, CountsOf, Held;
  }

  lemma {:induction false} TailMirrors(t: Targets, windows: seq<Window>, prefix: seq<Archive>, m: nat)
    requires TargetsOk(t) && HistoryOk(windows) && m <= |windows|
    requires AbsorbAll(prefix).Ok? && Mirrors(t, AbsorbAll(prefix).value, LiveAfter(t, windows[..m]))
    ensures AbsorbAll(prefix + Archives(t, windows)[m..]).Ok?
    ensures Mirrors(t, AbsorbAll(prefix + Archives(t, windows)[m..]).value, LiveAfter(t, windows))
  {
    hide *;
    var archives := prefix + Archives(t, windows)[m..];
    if m == |windows| {
      assert archives == prefix && windows[..m] == windows;
    } else {
      var rest, last := windows[..|windows| - 1], windows[|windows| - 1];
      LastWindow(t, windows);
      assert rest[..m] == windows[..m];
      TailMirrors(t, rest, prefix, m);
      var before, a := prefix + Archives(t, rest)[m..], ArchiveOf(t, LiveAfter(t, rest), last);
      assert (Archives(t, rest) + [a])[m..] == Archives(t, rest)[m..] + [a] && archives == before + [a];
      OneMoreMirrors(t, before, LiveAfter(t, rest), last);
    }
  }

  /** All archives but the one of window `k`. */
  function Without(t: Targets, windows: seq<Window>, k: nat): seq<Archive>
    requires k < |windows|
  {
    Archives(t, windows)[..k] + Archives(t, windows)[k + 1..]
  }

  lemma SkipPrefix(t: Targets, windows: seq<Window>, k: nat)
    requires TargetsOk(t) && HistoryOk(windows) && k + 1 < |windows|
    ensures var w, v, live := windows[k], windows[k + 1], LiveAfter(t, windows[..k]);
            var prefix := Archives(t, windows)[..k] + [Archives(t, windows)[k + 1]];
            && (v.revision == w.revision && !AddsNothing(t, live, w) ==> AbsorbAll(prefix).Err?)
            && (v.revision != w.revision || AddsNothing(t, live, w) ==>
                  AbsorbAll(prefix).Ok? && Mirrors(t, AbsorbAll(prefix).value, LiveAfter(t, windows[..k + 2])))
  {
    var w, v, live := windows[k], windows[k + 1], LiveAfter(t, windows[..k]);
    var next := After(t, live, w);
    hide AbsorbAll, Absorb, Archives, ArchiveOf, After, LiveAfter, OpenedFor, Before, SameGroups, Held, Mirrors,
        AddsNothing;
    SkipReads(t, windows, k);
    HistoryMirrors(t, windows[..k]);
    var s := AbsorbAll(Archives(t, windows[..k])).value;
    SkipOpens(t, s, live, w, v);
    if v.revision == w.revision && !AddsNothing(t, live, w) {
      SkipRefused(t, s, next, v);
    } else {
      StepMirrors(t, s, next, v);
    }
  }

  /** What the replay absorbs when the archive of window `k` is missing. */
  lemma SkipReads(t: Targets, windows: seq<Window>, k: nat)
    requires k + 1 < |windows|
    ensures var next := After(t, LiveAfter(t, windows[..k]), windows[k]);
            && LiveAfter(t, windows[..k + 2]) == After(t, next, windows[k + 1])
            && (AbsorbAll(Archives(t, windows[..k])).Ok? ==>
                  AbsorbAll(Archives(t, windows)[..k] + [Archives(t, windows)[k + 1]])
                  == Absorb(AbsorbAll(Archives(t, windows[..k])).value, ArchiveOf(t, next, windows[k + 1])))
  {
    var prefix := Archives(t, windows)[..k] + [Archives(t, windows)[k + 1]];
    ArchivesPrefix(t, windows, k);
    ArchiveAt(t, windows, k + 1);
    assert windows[..k + 1][..k] == windows[..k] && windows[..k + 2][..k + 1] == windows[..k + 1];
    assert prefix[..|prefix| - 1] == Archives(t, windows[..k]);
    hide Absorb, Archives, ArchiveOf, After;
  }

  lemma {:induction false} ArchivesPrefix(t: Targets, windows: seq<Window>, k: nat)
    requires k <= |windows|
    ensures Archives(t, windows)[..k] == Archives(t, windows[..k])
  {
    if k < |windows| {
      var rest := windows[..|windows| - 1];
      ArchivesPrefix(t, rest, k);
      assert rest[..k] == windows[..k];
      assert Archives(t, windows)[..k] == Archives(t, rest)[..k];
    } else {
      assert windows[..k] == windows;
    }
  }

  /** Leaving one archive that is not the last out of a complete history is refused exactly when that archive
      had added a group and the next one continues with the same revision. In every other case the archive did
      not matter: the reconstruction is as with it, apart from the list of source windows. */
  lemma MissingArchiveNoticed(t: Targets, windows: seq<Window>, k: nat, given: seq<Archive>)
    requires TargetsOk(t) && HistoryOk(windows) && k + 1 < |windows|
    requires LiveReady(t, LiveAfter(t, windows))
    requires multiset(given) == multiset(Without(t, windows, k))
    ensures Reconstruction(given).Err? <==>
              windows[k + 1].revision == windows[k].revision && !AddsNothing(t, LiveAfter(t, windows[..k]), windows[k])
    ensures Reconstruction(given).Ok? ==>
              && Reconstruction(given).value.batches == HeldInOrder(t, LiveAfter(t, windows))
              && Reconstruction(given).value.revision == windows[|windows| - 1].revision
  {
    hide Archives, LiveAfter, AddsNothing, Finish, Mirrors, LiveReady, HeldInOrder, HeldCounts, TargetCounts, AbsorbAll,
         Bounded;
    var archives, kept := Archives(t, windows), Without(t, windows, k);
    ArchivesAscend(t, windows);
    SortRestores(kept, given);
    SkipPrefix(t, windows, k);
    var prefix := archives[..k] + [archives[k + 1]];
    assert kept[..k + 1] == prefix && kept == prefix + archives[k + 2..];
    hide Without;
    if AbsorbAll(prefix).Err? {
      RefusalStays(kept, k + 1);
    } else {
      TailMirrors(t, windows, prefix, k + 2);
      AllBounded(t, windows);
      MirrorOutcome(t, LiveAfter(t, windows), AbsorbAll(kept).value);
    }
  }
}

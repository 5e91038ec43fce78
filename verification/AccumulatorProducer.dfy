/** The live accumulator, the archives it leaves behind, and why replaying them inverts it. */
module AccumulatorProducer {
  import opened Wrappers
  import opened AccumulatorReplay

  /** One training window: its groups, the environments that it maps to lists of them, the checkpoint they were
      generated against, and whether they are offered at all (a timed-out or quarantined window is archived but offers
      nothing). */
  datatype Window = Window(start: int, batch: seq<Group>, envs: set<string>, revision: string, offered: bool)

  datatype Targets = Targets(order: seq<string>, of: map<string, nat>)

  /** What the accumulator holds. */
  datatype Live = Live(groups: Retained, revision: Option<string>)

  ghost predicate TargetsOk(t: Targets)
  {
    && t.order != []
    && (forall env :: env in t.order <==> env in t.of)
    && forall i, j :: 0 <= i < j < |t.order| ==> t.order[i] != t.order[j]
  }

  function Initial(t: Targets): Live { Live(map env | env in t.of :: [], None) }

  predicate Resets(live: Live, w: Window) { live.revision.Some? && live.revision.value != w.revision }

  /** The groups that are left when a window arrives. */
  function Before(t: Targets, live: Live, w: Window): Retained
  {
    if Resets(live, w) then Initial(t).groups else live.groups
  }

  function Incoming(w: Window, env: string): seq<Group>
  {
    if w.offered && env in w.envs then OfEnv(w.batch, env) else []
  }

  /** As much of the window as the environment still needs. */
  function Accepted(t: Targets, before: Retained, w: Window, env: string): seq<Group>
    requires env in t.of
  {
    var capacity := t.of[env] - |Held(before, env)|;
    Slice(Incoming(w, env), if capacity > 0 then capacity else 0)
  }

  /** The groups after the environments in `done` have taken theirs. */
  function Filled(t: Targets, before: Retained, w: Window, done: set<string>): Retained
  {
    map env | env in t.of ::
      if env in done then Held(before, env) + Accepted(t, before, w, env) else Held(before, env)
  }

  function AddedBy(t: Targets, before: Retained, w: Window, done: set<string>): Counts
  {
    map env | env in t.of && env in done :: |Accepted(t, before, w, env)|
  }

  function CountsOf(t: Targets, groups: Retained): Counts { map env | env in t.of :: |Held(groups, env)| }

  function TargetCounts(t: Targets): Counts { map env | env in t.of :: t.of[env] as int }

  function After(t: Targets, live: Live, w: Window): Live
  {
    Live(Filled(t, Before(t, live, w), w, t.of.Keys), Some(w.revision))
  }

  function SnapshotOf(t: Targets, live: Live, w: Window): Snapshot
  {
    Snapshot(w.revision, t.order, TargetCounts(t), CountsOf(t, After(t, live, w).groups))
  }

  /** The metadata that `add_window` returns and the archive keeps. */
  function MetaOf(t: Targets, live: Live, w: Window): Meta
  {
    var before := Before(t, live, w);
    Meta(Resets(live, w), CountsOf(t, before), AddedBy(t, before, w, t.of.Keys), Some(SnapshotOf(t, live, w)))
  }

  function ArchiveOf(t: Targets, live: Live, w: Window): Archive { Archive(w.start, w.batch, Some(MetaOf(t, live, w))) }

  // ---------------------------------------------------------------- what else the accumulator keeps

  /** For each environment, the windows that contributed to what it holds. */
  type Sources = map<string, seq<int>>

  function NoSources(t: Targets): Sources { map env | env in t.of :: [] }

  function SourcesOf(sources: Sources, env: string): seq<int> { if env in sources then sources[env] else [] }

  function SourcesBefore(t: Targets, live: Live, sources: Sources, w: Window): Sources
  {
    if Resets(live, w) then NoSources(t) else sources
  }

  /** A window that contributes is noted, once in a row. */
  function Noted(sources: seq<int>, start: int, contributes: bool): seq<int>
  {
    if contributes && (sources == [] || sources[|sources| - 1] != start) then sources + [start] else sources
  }

  function NotedAll(t: Targets, before: Retained, sources: Sources, w: Window, done: set<string>): Sources
  {
    map env | env in t.of ::
      if env in done then Noted(SourcesOf(sources, env), w.start, Accepted(t, before, w, env) != [])
      else SourcesOf(sources, env)
  }

  /** What a window brought beyond the need of an environment. */
  function LeftBy(t: Targets, before: Retained, w: Window, done: set<string>): Counts
  {
    map env | env in t.of && env in done :: |Incoming(w, env)| - |Accepted(t, before, w, env)|
  }

  /** `snapshot`. */
  datatype Report = Report(
    revision: Option<string>, targets: Counts, counts: Counts, sources: Sources, ready: bool)

  function ReportOf(t: Targets, live: Live, sources: Sources): Report
  {
    Report(live.revision, TargetCounts(t), CountsOf(t, live.groups), sources, LiveReady(t, live))
  }

  /** What `add_window` returns: the metadata that the replay reads, the report of what a change of revision discarded,
      what was left over, and the report afterwards. */
  datatype Update = Update(meta: Meta, discarded: Option<Report>, left: Counts, report: Report)

  function UpdateOf(t: Targets, live: Live, sources: Sources, w: Window): Update
  {
    Update(MetaOf(t, live, w),
           if Resets(live, w) then Some(ReportOf(t, live, sources)) else None,
           LeftBy(t, Before(t, live, w), w, t.of.Keys),
           ReportOf(t, After(t, live, w), SourcesAfter(t, live, sources, w)))
  }

  function SourcesAfter(t: Targets, live: Live, sources: Sources, w: Window): Sources
  {
    NotedAll(t, Before(t, live, w), SourcesBefore(t, live, sources, w), w, t.of.Keys)
  }

  /** The window offers lists for configured environments only; an empty list for another is refused too. */
  predicate Known(t: Targets, w: Window) { w.offered ==> w.envs <= t.of.Keys }

  /** `BalancedTrainingAccumulator`. */
  class Accumulator {
    const targets: Targets
    var groups: Retained
    var sources: Sources
    var revision: Option<string>

    ghost predicate Valid()
      reads this
    {
      TargetsOk(targets) && groups.Keys == targets.of.Keys && sources.Keys == targets.of.Keys
    }

    function Contents(): Live
      reads this
    {
      Live(groups, revision)
    }

    constructor (t: Targets)
      requires TargetsOk(t)
      ensures Valid() && targets == t && Contents() == Initial(t) && sources == NoSources(t)
    {
      targets := t;
      groups := map env | env in t.of :: [];
      sources := NoSources(t);
      revision := None;
    }

    /** `__init__` on a mapping, given as its keys in order and its values: an error for no targets and for a negative
        one. */
    static method Create(order: seq<string>, of: map<string, int>) returns (r: Result<Accumulator>)
      requires forall env :: env in order <==> env in of
      requires forall i, j :: 0 <= i < j < |order| ==> order[i] != order[j]
      ensures r.Ok? <==> of != map[] && forall env :: env in of ==> of[env] >= 0
      ensures r.Ok? ==> fresh(r.value) && r.value.Valid() && r.value.Contents() == Initial(r.value.targets)
      ensures r.Ok? ==> r.value.targets.order == order && TargetCounts(r.value.targets) == of
    {
      if order == [] {
        assert of == map[];
        return Err("no environment");
      }
      assert order[0] in of;
      if exists env :: env in of && of[env] < 0 {
        return Err("negative target");
      }
      var t := Targets(order, map env | env in of :: of[env]);
      var accumulator := new Accumulator(t);
      return Ok(accumulator);
    }

    /** `reset`. */
    method Reset() returns (previous: Report)
      requires Valid()
      modifies this
      ensures Valid() && Contents() == Initial(targets) && sources == NoSources(targets)
      ensures previous == ReportOf(targets, old(Contents()), old(sources))
    {
      hide ReportOf;
      previous := ReportOf(targets, Contents(), sources);
      groups := map env | env in targets.of :: [];
      sources := NoSources(targets);
      revision := None;
    }

    lemma ValidParts()
      requires Valid()
      ensures TargetsOk(targets) && groups.Keys == targets.of.Keys && sources.Keys == targets.of.Keys
    {
    }

    /** One environment of the loop: it takes what the environment still needs, notes the window, and counts. `done` are
        the environments that have had their turn. */
    method TakeOne(w: Window, env: string, added: Counts, left: Counts,
                   ghost before: Retained, ghost noted: Sources, ghost done: set<string>)
      returns (added': Counts, left': Counts)
      requires env in targets.of && env !in done
      requires groups == Filled(targets, before, w, done) && sources == NotedAll(targets, before, noted, w, done)
      requires added == AddedBy(targets, before, w, done) && left == LeftBy(targets, before, w, done)
      modifies this`groups, this`sources
      ensures groups == Filled(targets, before, w, done + {env})
      ensures sources == NotedAll(targets, before, noted, w, done + {env})
      ensures added' == AddedBy(targets, before, w, done + {env})
      ensures left' == LeftBy(targets, before, w, done + {env})
    {
      hide *;
      FillOne(targets, before, w, done, env);
      NoteOne(targets, before, noted, w, done, env);
      AddOne(targets, before, w, done, env);
      var incoming, held := Incoming(w, env), groups[env];
      var capacity := targets.of[env] - |held|;
      var accepted := Slice(incoming, if capacity > 0 then capacity else 0);
      groups := groups[env := held + accepted];
      sources := sources[env := Noted(sources[env], w.start, accepted != [])];
      added' := added[env := |accepted|];
      left' := left[env := |incoming| - |accepted|];
    }

    /** The loop of `add_window`. */
    method TakeGroups(w: Window) returns (added: Counts, left: Counts)
      requires Valid()
      modifies this`groups, this`sources
      ensures groups == Filled(targets, old(groups), w, targets.of.Keys)
      ensures sources == NotedAll(targets, old(groups), old(sources), w, targets.of.Keys)
      ensures added == AddedBy(targets, old(groups), w, targets.of.Keys)
      ensures left == LeftBy(targets, old(groups), w, targets.of.Keys)
    {
      hide *;
      ValidParts();
      ghost var before, noted := groups, sources;
      FillNone(targets, before, w);
      NoteNone(targets, before, noted, w);
      added, left := map[], map[];
      for i := 0 to |targets.order|
        invariant groups == Filled(targets, before, w, Firsts(targets.order, i))
        invariant sources == NotedAll(targets, before, noted, w, Firsts(targets.order, i))
        invariant added == AddedBy(targets, before, w, Firsts(targets.order, i))
        invariant left == LeftBy(targets, before, w, Firsts(targets.order, i))
      {
        FirstsGrow(targets, i);
        added, left := TakeOne(w, targets.order[i], added, left, before, noted, Firsts(targets.order, i));
      }
      AllFirsts(targets);
    }

    /** `add_window`: an error, and nothing changed, for an environment without a target. */
    method AddWindow(w: Window) returns (r: Result<Update>)
      requires Valid()
      modifies this
      ensures Valid() && (r.Ok? <==> Known(targets, w))
      ensures r.Err? ==> Contents() == old(Contents()) && sources == old(sources)
      ensures r.Ok? ==> Contents() == After(targets, old(Contents()), w)
      ensures r.Ok? ==> sources == SourcesAfter(targets, old(Contents()), old(sources), w)
      ensures r.Ok? ==> r.value == UpdateOf(targets, old(Contents()), old(sources), w)
    {
      if !Known(targets, w) {
        return Err("unknown environment");
      }
      hide LiveReady, Known;
      var reset := revision.Some? && revision.value != w.revision;
      var discarded: Option<Report> := None;
      if reset {
        var previous := Reset();
        discarded := Some(previous);
      }
      revision := Some(w.revision);
      assert groups == Before(targets, old(Contents()), w);
      assert sources == SourcesBefore(targets, old(Contents()), old(sources), w);
      var countsBefore := CountsOf(targets, groups);
      FilledKeys(targets, groups, w);
      NotedKeys(targets, groups, sources, w);
      var added, left := TakeGroups(w);
      hide Filled, AddedBy, CountsOf, TargetCounts, NotedAll, LeftBy;
      var meta := Meta(reset, countsBefore, added,
                       Some(Snapshot(w.revision, targets.order, TargetCounts(targets), CountsOf(targets, groups))));
      assert Contents() == After(targets, old(Contents()), w);
      r := Ok(Update(meta, discarded, left, ReportOf(targets, Contents(), sources)));
    }
  }

  function Firsts(order: seq<string>, i: nat): set<string>
    requires i <= |order|
  {
    set j | 0 <= j < i :: order[j]
  }

  lemma FirstsGrow(t: Targets, i: nat)
    requires TargetsOk(t) && i < |t.order|
    ensures t.order[i] in t.of && t.order[i] !in Firsts(t.order, i)
    ensures Firsts(t.order, i + 1) == Firsts(t.order, i) + {t.order[i]}
  {
    assert t.order[i] in t.order;
  }

  lemma AllFirsts(t: Targets)
    requires TargetsOk(t)
    ensures Firsts(t.order, |t.order|) == t.of.Keys
  {
    forall env | env in t.of
      ensures env in Firsts(t.order, |t.order|)
    {
      var j :| 0 <= j < |t.order| && t.order[j] == env;
    }
  }

  lemma FillNone(t: Targets, before: Retained, w: Window)
    requires before.Keys == t.of.Keys
    ensures Filled(t, before, w, {}) == before && AddedBy(t, before, w, {}) == map[] && Firsts(t.order, 0) == {}
  {
  }

  lemma NoteNone(t: Targets, before: Retained, sources: Sources, w: Window)
    requires sources.Keys == t.of.Keys
    ensures NotedAll(t, before, sources, w, {}) == sources && LeftBy(t, before, w, {}) == map[]
  {
  }

  lemma NotedKeys(t: Targets, before: Retained, sources: Sources, w: Window)
    ensures NotedAll(t, before, sources, w, t.of.Keys).Keys == t.of.Keys
  {
  }

  lemma NoteOne(t: Targets, before: Retained, sources: Sources, w: Window, done: set<string>, env: string)
    requires env in t.of && env !in done
    ensures var known := NotedAll(t, before, sources, w, done);
            && env in known
            && NotedAll(t, before, sources, w, done + {env})
               == known[env := Noted(known[env], w.start, Accepted(t, before, w, env) != [])]
  {
    hide Accepted, Noted;
  }

  lemma AddOne(t: Targets, before: Retained, w: Window, done: set<string>, env: string)
    requires env in t.of && env !in done
    ensures AddedBy(t, before, w, done + {env}) == AddedBy(t, before, w, done)[env := |Accepted(t, before, w, env)|]
    ensures LeftBy(t, before, w, done + {env})
            == LeftBy(t, before, w, done)[env := |Incoming(w, env)| - |Accepted(t, before, w, env)|]
  {
    hide Accepted, Incoming;
  }

  lemma FilledKeys(t: Targets, before: Retained, w: Window)
    ensures Filled(t, before, w, t.of.Keys).Keys == t.of.Keys
  {
  }

  lemma FillOne(t: Targets, before: Retained, w: Window, done: set<string>, env: string)
    requires env in t.of && env !in done
    ensures var groups := Filled(t, before, w, done);
            && env in groups && groups[env] == Held(before, env)
            && Accepted(t, before, w, env)
               == Slice(Incoming(w, env), if t.of[env] - |groups[env]| > 0 then t.of[env] - |groups[env]| else 0)
            && Filled(t, before, w, done + {env}) == groups[env := groups[env] + Accepted(t, before, w, env)]
  {
    hide Slice, Incoming, Held;
  }

  // ---------------------------------------------------------------- histories

  function LiveAfter(t: Targets, windows: seq<Window>): Live
  {
    if windows == [] then Initial(t)
    else After(t, LiveAfter(t, windows[..|windows| - 1]), windows[|windows| - 1])
  }

  function Archives(t: Targets, windows: seq<Window>): (archives: seq<Archive>)
    ensures |archives| == |windows|
  {
    if windows == [] then [] else
    Archives(t, windows[..|windows| - 1]) +
    [ArchiveOf(t, LiveAfter(t, windows[..|windows| - 1]), windows[|windows| - 1])]
  }

  /** Windows come in the order of their starts and name their checkpoint. */
  ghost predicate HistoryOk(windows: seq<Window>)
  {
    && (forall i, j :: 0 <= i < j < |windows| ==> windows[i].start < windows[j].start)
    && forall i :: 0 <= i < |windows| ==> windows[i].revision != ""
  }

  predicate LiveReady(t: Targets, live: Live)
  {
    forall env :: env in t.of ==> |Held(live.groups, env)| >= t.of[env]
  }

  /** The replay state and the live accumulator hold the same. */
  ghost predicate SameGroups(t: Targets, retained: Retained, groups: Retained)
  {
    && retained.Keys <= t.of.Keys && groups.Keys == t.of.Keys
    && forall env :: env in t.of ==> Held(retained, env) == Held(groups, env)
  }

  ghost predicate Mirrors(t: Targets, s: Replay, live: Live)
  {
    && SameGroups(t, s.retained, live.groups)
    && s.revision == live.revision
    && (live.revision.Some? ==> s.order == t.order && s.targets == TargetCounts(t))
  }

  function OpenedFor(t: Targets, s: Replay, live: Live, w: Window): Retained
  {
    Opened(s.retained, s.revision, MetaOf(t, live, w), SnapshotOf(t, live, w))
  }

  lemma MirrorOpens(t: Targets, s: Replay, live: Live, w: Window)
    requires Mirrors(t, s, live)
    ensures SameGroups(t, OpenedFor(t, s, live, w), Before(t, live, w))
    ensures OpenedFor(t, s, live, w).Keys == t.of.Keys
  {
    hide CountsOf, AddedBy, Filled;
  }

  lemma AcceptedIsSupplied(t: Targets, before: Retained, w: Window, env: string)
    requires env in t.of
    ensures |Accepted(t, before, w, env)| <= |OfEnv(w.batch, env)|
    ensures Slice(OfEnv(w.batch, env), |Accepted(t, before, w, env)|) == Accepted(t, before, w, env)
  {
  }

  lemma ExtendAt(t: Targets, kept: Retained, before: Retained, w: Window, env: string)
    requires SameGroups(t, kept, before) && kept.Keys == t.of.Keys && env in t.of
    ensures var added, filled := AddedBy(t, before, w, t.of.Keys), Filled(t, before, w, t.of.Keys);
            && env in added && env in filled && env in kept
            && |OfEnv(w.batch, env)| >= added[env]
            && kept[env] + Slice(OfEnv(w.batch, env), added[env]) == filled[env]
  {
    AcceptedIsSupplied(t, before, w, env);
    hide Accepted, Slice, OfEnv;
  }

  /** Adding the logged number of groups of each environment gives what the accumulator held afterwards. */
  lemma ExtendFills(t: Targets, kept: Retained, before: Retained, w: Window)
    requires SameGroups(t, kept, before) && kept.Keys == t.of.Keys
    ensures Supplies(kept, w.batch, AddedBy(t, before, w, t.of.Keys))
    ensures Extended(kept, w.batch, AddedBy(t, before, w, t.of.Keys)) == Filled(t, before, w, t.of.Keys)
  {
    var added, filled := AddedBy(t, before, w, t.of.Keys), Filled(t, before, w, t.of.Keys);
    FilledKeys(t, before, w);
    assert added.Keys == t.of.Keys;
    hide Slice, OfEnv, Filled, AddedBy, SameGroups;
    forall env | env in t.of
      ensures env in kept && |OfEnv(w.batch, env)| >= added[env]
      ensures kept[env] + Slice(OfEnv(w.batch, env), added[env]) == filled[env]
    {
      ExtendAt(t, kept, before, w, env);
    }
  }

  lemma CountsAgree(t: Targets, kept: Retained, groups: Retained)
    requires SameGroups(t, kept, groups)
    ensures CountsMatch(kept, CountsOf(t, groups))
  {
  }

  /** Replaying the archive of a window does to the replay state what the window did to the accumulator, from
      any state that the archive leaves with the same groups. */
  lemma StepMirrors(t: Targets, s: Replay, live: Live, w: Window)
    requires w.revision != ""
    requires SameGroups(t, OpenedFor(t, s, live, w), Before(t, live, w)) && OpenedFor(t, s, live, w).Keys == t.of.Keys
    ensures Absorb(s, ArchiveOf(t, live, w)).Ok?
    ensures Mirrors(t, Absorb(s, ArchiveOf(t, live, w)).value, After(t, live, w))
    ensures Absorb(s, ArchiveOf(t, live, w)).value.windows == s.windows + [w.start]
  {
    var kept, before := OpenedFor(t, s, live, w), Before(t, live, w);
    CountsAgree(t, kept, before);
    ExtendFills(t, kept, before, w);
    FilledKeys(t, before, w);
    var filled := Filled(t, before, w, t.of.Keys);
    assert SameGroups(t, filled, filled);
    CountsAgree(t, filled, filled);
    hide Opened, Filled, AddedBy, CountsOf, CountsMatch, Supplies, Extended, Before, TargetCounts, SameGroups;
  }

  function Starts(windows: seq<Window>): seq<int> { seq(|windows|, i requires 0 <= i < |windows| => windows[i].start) }

  /** A replay that mirrors the accumulator still does after one more window. */
  lemma OneMoreMirrors(t: Targets, before: seq<Archive>, live: Live, w: Window)
    requires w.revision != "" && AbsorbAll(before).Ok? && Mirrors(t, AbsorbAll(before).value, live)
    ensures AbsorbAll(before + [ArchiveOf(t, live, w)]).Ok?
    ensures Mirrors(t, AbsorbAll(before + [ArchiveOf(t, live, w)]).value, After(t, live, w))
    ensures AbsorbAll(before + [ArchiveOf(t, live, w)]).value.windows == AbsorbAll(before).value.windows + [w.start]
  {
    hide Mirrors, Absorb, AbsorbAll, After, ArchiveOf, OpenedFor, Before;
    AbsorbOneMore(before, ArchiveOf(t, live, w));
    MirrorOpens(t, AbsorbAll(before).value, live, w);
    StepMirrors(t, AbsorbAll(before).value, live, w);
  }

  lemma {:induction false} HistoryMirrors(t: Targets, windows: seq<Window>)
    requires TargetsOk(t) && HistoryOk(windows)
    ensures AbsorbAll(Archives(t, windows)).Ok?
    ensures Mirrors(t, AbsorbAll(Archives(t, windows)).value, LiveAfter(t, windows))
    ensures AbsorbAll(Archives(t, windows)).value.windows == Starts(windows)
  {
    hide *;
    if windows == [] {
      NoWindows(t);
    } else {
      var rest, last := windows[..|windows| - 1], windows[|windows| - 1];
      LastWindow(t, windows);
      HistoryMirrors(t, rest);
      OneMoreMirrors(t, Archives(t, rest), LiveAfter(t, rest), last);
    }
  }

  lemma NoWindows(t: Targets)
    ensures LiveAfter(t, []) == Initial(t) && Archives(t, []) == [] && Starts([]) == []
    ensures AbsorbAll([]) == Ok(EMPTY) && EMPTY.windows == [] && Mirrors(t, EMPTY, Initial(t))
  {
  }

  lemma LastWindow(t: Targets, windows: seq<Window>)
    requires windows != []
    ensures var rest, last := windows[..|windows| - 1], windows[|windows| - 1];
            && LiveAfter(t, windows) == After(t, LiveAfter(t, rest), last)
            && Archives(t, windows) == Archives(t, rest) + [ArchiveOf(t, LiveAfter(t, rest), last)]
            && Starts(windows) == Starts(rest) + [last.start]
            && (HistoryOk(windows) ==> HistoryOk(rest) && last.revision != "")
  {
    hide After, ArchiveOf;
  }
}

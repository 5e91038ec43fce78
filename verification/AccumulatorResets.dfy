/** Everything that can happen to a live accumulator and to its archives, and what a replay makes of it. A clearing is
    noted in the archive under keys that the replay does not read. */
module AccumulatorResets {
  import opened Wrappers
  import opened AccumulatorReplay
  import opened AccumulatorProducer
  import opened AccumulatorInverse

  /** `Added` is `add_window` with its archive; `Cleared` is `reset`, or a restart of the service; `Aborted` is a window
      that ended before `add_window`; `Unarchived` is `add_window` where writing the archive failed afterwards; `Mixed`
      is a window whose environments disagree on the checkpoint, for which the service resets and writes its own
      record. */
  datatype Event =
    | Added(window: Window)
    | Cleared
    | Aborted(start: int)
    | Unarchived(window: Window)
    | Mixed(start: int, batch: seq<Group>)

  function Effect(t: Targets, live: Live, e: Event): Live
  {
    match e
    case Added(w) => After(t, live, w)
    case Unarchived(w) => After(t, live, w)
    case Aborted(_) => live
    case _ => Initial(t)
  }

  /** The archive of an aborted window: metadata without a snapshot. */
  function Tombstone(start: int): Archive { Archive(start, [], Some(Meta(false, map[], map[], None))) }

  /** The record of a window with several checkpoints: its snapshot is taken after the reset and names none. */
  function MixedRecord(t: Targets, live: Live, start: int, batch: seq<Group>): Archive
  {
    var snapshot := Snapshot("", t.order, TargetCounts(t), CountsOf(t, Initial(t).groups));
    Archive(start, batch, Some(Meta(true, CountsOf(t, live.groups), map env | env in t.of :: 0, Some(snapshot))))
  }

  /** What an event leaves in the archive. */
  function Written(t: Targets, live: Live, e: Event): seq<Archive>
  {
    match e
    case Added(w) => [ArchiveOf(t, live, w)]
    case Cleared => []
    case Aborted(start) => [Tombstone(start)]
    case Unarchived(w) => [Tombstone(w.start)]
    case Mixed(start, batch) => [MixedRecord(t, live, start, batch)]
  }

  function LiveNow(t: Targets, events: seq<Event>): Live
  {
    if events == [] then Initial(t) else Effect(t, LiveNow(t, events[..|events| - 1]), events[|events| - 1])
  }

  function ArchivesOf(t: Targets, events: seq<Event>): seq<Archive>
  {
    if events == [] then [] else
    var rest := events[..|events| - 1];
    ArchivesOf(t, rest) + Written(t, LiveNow(t, rest), events[|events| - 1])
  }

  /** The archive has a snapshot, and the snapshot names a checkpoint. */
  predicate Usable(a: Archive)
  {
    a.meta.Some? && a.meta.value.snapshot.Some? && a.meta.value.snapshot.value.revision != ""
  }

  function UsableOf(archives: seq<Archive>): seq<Archive>
  {
    if archives == [] then [] else
    var last := archives[|archives| - 1];
    UsableOf(archives[..|archives| - 1]) + if Usable(last) then [last] else []
  }

  function StartsOf(archives: seq<Archive>): seq<int>
  {
    seq(|archives|, i requires 0 <= i < |archives| => archives[i].start)
  }

  ghost predicate Chronological(archives: seq<Archive>)
  {
    forall i, j :: 0 <= i < j < |archives| ==> archives[i].start < archives[j].start
  }

  // ---------------------------------------------------------------- histories

  /** The accumulator as its last window left it. */
  function LastLive(t: Targets, events: seq<Event>): Live
  {
    if events == [] then Initial(t) else
    var e := events[|events| - 1];
    if e.Added? || e.Unarchived? then LiveNow(t, events) else LastLive(t, events[..|events| - 1])
  }

  predicate Clears(e: Event) { e.Cleared? || e.Mixed? }

  /** The accumulator was cleared since its last window. */
  predicate Interrupted(events: seq<Event>)
  {
    events != [] &&
    var e := events[|events| - 1];
    Clears(e) || (e.Aborted? && Interrupted(events[..|events| - 1]))
  }

  predicate HoldsNothing(t: Targets, live: Live)
  {
    forall env :: env in t.of ==> Held(live.groups, env) == []
  }

  /** A window that comes first after a clearing finds another revision, or nothing had been held. */
  predicate Admits(t: Targets, rest: seq<Event>, e: Event)
  {
    e.Added? && Interrupted(rest) && LastLive(t, rest).revision == Some(e.window.revision) ==>
      HoldsNothing(t, LastLive(t, rest))
  }

  /** Every clearing that was followed by a window of the same revision found nothing held. */
  predicate Harmless(t: Targets, events: seq<Event>)
  {
    events != [] ==>
      var rest := events[..|events| - 1];
      Harmless(t, rest) && Admits(t, rest, events[|events| - 1])
  }

  /** Every window that reached the accumulator names its checkpoint and has its archive. */
  predicate Intact(events: seq<Event>)
  {
    forall e :: e in events ==> !e.Unarchived? && (e.Added? ==> e.window.revision != "")
  }

  /** No window was aborted, mixed, without a checkpoint or without its archive. */
  predicate Readable(events: seq<Event>)
  {
    forall e :: e in events ==> e.Cleared? || (e.Added? && e.window.revision != "")
  }

  lemma Unfold(t: Targets, rest: seq<Event>, e: Event)
    ensures var events := rest + [e];
            && LiveNow(t, events) == Effect(t, LiveNow(t, rest), e)
            && ArchivesOf(t, events) == ArchivesOf(t, rest) + Written(t, LiveNow(t, rest), e)
            && LastLive(t, events) == (if e.Added? || e.Unarchived? then LiveNow(t, events) else LastLive(t, rest))
            && (Interrupted(events) <==> Clears(e) || (e.Aborted? && Interrupted(rest)))
            && (Harmless(t, events) <==> Harmless(t, rest) && Admits(t, rest, e))
  {
    var events := rest + [e];
    assert events[..|events| - 1] == rest && events[|events| - 1] == e;
    hide Effect, Written, Admits, Clears;
  }

  lemma NoEvents(t: Targets)
    ensures LiveNow(t, []) == LastLive(t, []) == Initial(t) && ArchivesOf(t, []) == []
    ensures Harmless(t, []) && !Interrupted([])
  {
  }

  lemma {:induction false} LastLiveFacts(t: Targets, events: seq<Event>)
    ensures Interrupted(events) ==> LiveNow(t, events) == Initial(t)
    ensures !Interrupted(events) ==> LiveNow(t, events) == LastLive(t, events)
    ensures LastLive(t, events).revision.None? ==> LastLive(t, events) == Initial(t)
  {
    if events != [] {
      LastLiveFacts(t, events[..|events| - 1]);
      hide Filled, Before;
    }
  }

  lemma AfterBounded(t: Targets, live: Live, w: Window)
    requires Bounded(t, live)
    ensures Bounded(t, After(t, live, w))
  {
    forall env | env in t.of
      ensures |Held(After(t, live, w).groups, env)| <= t.of[env]
    {
    }
  }

  lemma {:induction false} AlwaysBounded(t: Targets, events: seq<Event>)
    ensures Bounded(t, LiveNow(t, events)) && Bounded(t, LastLive(t, events))
  {
    if events != [] {
      var rest, e := events[..|events| - 1], events[|events| - 1];
      AlwaysBounded(t, rest);
      if e.Added? || e.Unarchived? {
        AfterBounded(t, LiveNow(t, rest), e.window);
      }
      hide After;
    }
  }

  // ---------------------------------------------------------------- usable archives

  lemma UsableMore(archives: seq<Archive>, more: seq<Archive>)
    requires |more| <= 1
    ensures UsableOf(archives + more) == UsableOf(archives) + UsableOf(more)
  {
    hide Usable;
    if more == [] {
      assert archives + more == archives;
    } else {
      assert (archives + more)[..|archives|] == archives && more[..0] == [];
    }
  }

  /** The usable archives of an event: that of a window which names its checkpoint. */
  lemma WrittenUsable(t: Targets, live: Live, e: Event)
    ensures |Written(t, live, e)| <= 1
    ensures UsableOf(Written(t, live, e))
            == if e.Added? && e.window.revision != "" then [ArchiveOf(t, live, e.window)] else []
    ensures UsableOf(Written(t, live, e)) == Written(t, live, e) <==>
              e.Cleared? || (e.Added? && e.window.revision != "")
  {
    var written := Written(t, live, e);
    assert written != [] ==> written[..0] == [];
    hide CountsOf, TargetCounts, AddedBy, After, Before;
  }

  lemma {:induction false} UsableShorter(archives: seq<Archive>)
    ensures |UsableOf(archives)| <= |archives|
    ensures |UsableOf(archives)| == |archives| ==> UsableOf(archives) == archives
    ensures (forall a :: a in archives ==> Usable(a)) <==> UsableOf(archives) == archives
  {
    hide Usable;
    if archives != [] {
      var rest, last := archives[..|archives| - 1], archives[|archives| - 1];
      UsableShorter(rest);
      assert archives == rest + [last];
    }
  }

  lemma {:induction false} ReadableIff(t: Targets, events: seq<Event>)
    ensures Readable(events) <==> UsableOf(ArchivesOf(t, events)) == ArchivesOf(t, events)
  {
    hide *;
    if events == [] {
      NoEvents(t);
      EmptyMirrors(t);
      NoneReadable();
    } else {
      var rest, e := events[..|events| - 1], events[|events| - 1];
      assert events == rest + [e];
      ReadableIff(t, rest);
      ReadableMore(rest, e);
      Unfold(t, rest, e);
      var archives, written := ArchivesOf(t, rest), Written(t, LiveNow(t, rest), e);
      WrittenUsable(t, LiveNow(t, rest), e);
      UsableMore(archives, written);
      UsableShorter(archives);
      UsableShorter(written);
      if UsableOf(archives + written) == archives + written {
        assert |UsableOf(archives)| + |UsableOf(written)| == |archives| + |written|;
      }
    }
  }

  lemma NoneReadable()
    ensures Readable([])
  {
  }

  lemma ReadableMore(rest: seq<Event>, e: Event)
    ensures Readable(rest + [e]) <==> Readable(rest) && (e.Cleared? || (e.Added? && e.window.revision != ""))
  {
    assert forall x :: x in rest + [e] <==> x in rest || x == e;
  }

  lemma IntactMore(rest: seq<Event>, e: Event)
    ensures Intact(rest + [e]) <==> Intact(rest) && !e.Unarchived? && (e.Added? ==> e.window.revision != "")
  {
    assert forall x :: x in rest + [e] <==> x in rest || x == e;
  }

  /** One archive that is not usable is enough for a refusal. */
  lemma {:induction false} UnusableRefuses(archives: seq<Archive>)
    requires UsableOf(archives) != archives
    ensures AbsorbAll(archives).Err?
  {
    var rest, last := archives[..|archives| - 1], archives[|archives| - 1];
    assert archives == rest + [last];
    if Usable(last) {
      hide Absorb;
      UnusableRefuses(rest);
    } else if AbsorbAll(rest).Ok? {
      assert Absorb(AbsorbAll(rest).value, last).Err?;
    }
  }

  lemma UsableLast(archives: seq<Archive>)
    requires archives != []
    ensures var rest, last := archives[..|archives| - 1], archives[|archives| - 1];
            UsableOf(archives) == UsableOf(rest) || UsableOf(archives) == UsableOf(rest) + [last]
  {
    hide Usable;
  }

  lemma {:induction false} UsableChronological(archives: seq<Archive>)
    requires Chronological(archives)
    ensures Chronological(UsableOf(archives)) && forall a :: a in UsableOf(archives) ==> a in archives
  {
    if archives != [] {
      hide *;
      var rest, last := archives[..|archives| - 1], archives[|archives| - 1];
      assert archives == rest + [last];
      LastIsLatest(rest, last);
      UsableChronological(rest);
      UsableLast(archives);
      LatestIsLast(UsableOf(rest), last);
    }
  }

  lemma LastIsLatest(rest: seq<Archive>, last: Archive)
    requires Chronological(rest + [last])
    ensures Chronological(rest) && forall a :: a in rest ==> a.start < last.start
  {
    var all := rest + [last];
    forall a | a in rest
      ensures a.start < last.start
    {
      var i :| 0 <= i < |rest| && rest[i] == a;
      assert all[i] == a && all[|rest|] == last;
    }
    assert forall i :: 0 <= i < |rest| ==> all[i] == rest[i];
  }

  lemma LatestIsLast(rest: seq<Archive>, last: Archive)
    requires Chronological(rest) && forall a :: a in rest ==> a.start < last.start
    ensures Chronological(rest + [last])
  {
  }

  // ---------------------------------------------------------------- a window after a clearing

  /** What the replay keeps for the window after a clearing: nothing when the revision changed, and otherwise all that
      the accumulator held before the clearing. */
  lemma ClearedKeeps(t: Targets, s: Replay, last: Live, w: Window, env: string)
    requires Mirrors(t, s, last) && env in t.of
    ensures OpenedFor(t, s, Initial(t), w).Keys == t.of.Keys
    ensures Held(OpenedFor(t, s, Initial(t), w), env)
            == if last.revision.Some? && last.revision.value != w.revision then [] else Held(last.groups, env)
  {
    hide CountsOf, AddedBy, Filled;
  }

  lemma InitialHolds(t: Targets, w: Window)
    ensures Before(t, Initial(t), w) == Initial(t).groups && Initial(t).groups.Keys == t.of.Keys
    ensures forall env :: env in t.of ==> Held(Initial(t).groups, env) == []
  {
  }

  lemma ClearedOpens(t: Targets, s: Replay, last: Live, w: Window)
    requires TargetsOk(t) && Mirrors(t, s, last) && (last.revision.None? ==> last == Initial(t))
    ensures var opened' := OpenedFor(t, s, Initial(t), w);
            if last.revision == Some(w.revision) && !HoldsNothing(t, last)
            then exists env :: env in t.of && |Held(opened', env)| != |Held(Before(t, Initial(t), w), env)|
            else SameGroups(t, opened', Before(t, Initial(t), w)) && opened'.Keys == t.of.Keys
  {
    hide OpenedFor, Mirrors, Before, Initial, Held;
    InitialHolds(t, w);
    assert t.order[0] in t.order;
    forall env | env in t.of
      ensures OpenedFor(t, s, Initial(t), w).Keys == t.of.Keys
      ensures Held(OpenedFor(t, s, Initial(t), w), env)
              == if last.revision.Some? && last.revision.value != w.revision then [] else Held(last.groups, env)
    {
      ClearedKeeps(t, s, last, w, env);
    }
  }

  lemma AfterClearing(t: Targets, archives: seq<Archive>, last: Live, w: Window)
    requires TargetsOk(t) && w.revision != "" && AbsorbAll(archives).Ok?
    requires Mirrors(t, AbsorbAll(archives).value, last) && (last.revision.None? ==> last == Initial(t))
    ensures var s := AbsorbAll(archives + [ArchiveOf(t, Initial(t), w)]);
            && (s.Ok? <==> (last.revision == Some(w.revision) ==> HoldsNothing(t, last)))
            && (s.Ok? ==> Mirrors(t, s.value, After(t, Initial(t), w)))
            && (s.Ok? ==> s.value.windows == AbsorbAll(archives).value.windows + [w.start])
  {
    hide *;
    var s := AbsorbAll(archives).value;
    AbsorbOneMore(archives, ArchiveOf(t, Initial(t), w));
    ClearedOpens(t, s, last, w);
    if last.revision == Some(w.revision) && !HoldsNothing(t, last) {
      SkipRefused(t, s, Initial(t), w);
    } else {
      StepMirrors(t, s, Initial(t), w);
    }
  }

  // ---------------------------------------------------------------- the whole history

  lemma ReplayStep(t: Targets, archives: seq<Archive>, events: seq<Event>, w: Window)
    requires TargetsOk(t) && w.revision != "" && AbsorbAll(archives).Ok?
    requires Mirrors(t, AbsorbAll(archives).value, LastLive(t, events))
    ensures var s := AbsorbAll(archives + [ArchiveOf(t, LiveNow(t, events), w)]);
            && (s.Ok? <==> Admits(t, events, Added(w)))
            && (s.Ok? ==> Mirrors(t, s.value, After(t, LiveNow(t, events), w)))
            && (s.Ok? ==> s.value.windows == AbsorbAll(archives).value.windows + [w.start])
  {
    hide AbsorbAll, Mirrors, ArchiveOf, After, LiveNow, LastLive, Interrupted, HoldsNothing, TargetsOk;
    LastLiveFacts(t, events);
    if Interrupted(events) {
      AfterClearing(t, archives, LastLive(t, events), w);
    } else {
      OneMoreMirrors(t, archives, LastLive(t, events), w);
    }
  }

  lemma RefusedFront(archives: seq<Archive>, a: Archive)
    requires AbsorbAll(archives).Err?
    ensures AbsorbAll(archives + [a]).Err?
  {
    assert (archives + [a])[..|archives|] == archives;
    RefusalStays(archives + [a], |archives|);
  }

  lemma StartsMore(archives: seq<Archive>, t: Targets, live: Live, w: Window)
    ensures StartsOf(archives + [ArchiveOf(t, live, w)]) == StartsOf(archives) + [w.start]
  {
    hide MetaOf;
  }

  lemma EmptyMirrors(t: Targets)
    ensures UsableOf([]) == [] && StartsOf([]) == []
    ensures AbsorbAll([]) == Ok(EMPTY) && EMPTY.windows == [] && Mirrors(t, EMPTY, Initial(t))
  {
  }

  /** Replaying the usable archives of an intact history goes through exactly when every clearing was harmless, and then
      ends with what the last window left in the accumulator. */
  lemma {:induction false} EventsMirror(t: Targets, events: seq<Event>)
    requires TargetsOk(t) && Intact(events)
    ensures var usable := UsableOf(ArchivesOf(t, events));
            var s := AbsorbAll(usable);
            && (s.Ok? <==> Harmless(t, events))
            && (s.Ok? ==> Mirrors(t, s.value, LastLive(t, events)) && s.value.windows == StartsOf(usable))
  {
    hide *;
    if events == [] {
      NoEvents(t);
      EmptyMirrors(t);
    } else {
      var rest, e := events[..|events| - 1], events[|events| - 1];
      assert events == rest + [e];
      IntactMore(rest, e);
      EventsMirror(t, rest);
      Unfold(t, rest, e);
      var archives, written := ArchivesOf(t, rest), Written(t, LiveNow(t, rest), e);
      WrittenUsable(t, LiveNow(t, rest), e);
      UsableMore(archives, written);
      if e.Added? {
        AddedMirrors(t, rest, e.window, UsableOf(archives));
      } else {
        NotAdded(t, rest, e);
        assert UsableOf(archives) + [] == UsableOf(archives);
      }
    }
  }

  lemma NotAdded(t: Targets, rest: seq<Event>, e: Event)
    requires !e.Added?
    ensures Admits(t, rest, e)
  {
  }

  lemma AddedMirrors(t: Targets, rest: seq<Event>, w: Window, usable: seq<Archive>)
    requires TargetsOk(t) && w.revision != ""
    requires AbsorbAll(usable).Ok? <==> Harmless(t, rest)
    requires AbsorbAll(usable).Ok? ==>
               Mirrors(t, AbsorbAll(usable).value, LastLive(t, rest))
                   && AbsorbAll(usable).value.windows == StartsOf(usable)
    ensures var all := usable + [ArchiveOf(t, LiveNow(t, rest), w)];
            && (AbsorbAll(all).Ok? <==> Harmless(t, rest) && Admits(t, rest, Added(w)))
            && (AbsorbAll(all).Ok? ==> Mirrors(t, AbsorbAll(all).value, Effect(t, LiveNow(t, rest), Added(w))))
            && (AbsorbAll(all).Ok? ==> AbsorbAll(all).value.windows == StartsOf(all))
  {
    hide Mirrors, AbsorbAll, Harmless, Admits, StartsOf, ArchiveOf, After, LiveNow, LastLive, TargetsOk;
    StartsMore(usable, t, LiveNow(t, rest), w);
    if Harmless(t, rest) {
      ReplayStep(t, usable, rest, w);
    } else {
      RefusedFront(usable, ArchiveOf(t, LiveNow(t, rest), w));
    }
  }

  lemma {:induction false} SomeWindow(t: Targets, events: seq<Event>)
    requires UsableOf(ArchivesOf(t, events)) != []
    ensures LastLive(t, events).revision.Some?
  {
    hide *;
    if events == [] {
      NoEvents(t);
      EmptyMirrors(t);
    } else {
      var rest, e := events[..|events| - 1], events[|events| - 1];
      assert events == rest + [e];
      Unfold(t, rest, e);
      WrittenUsable(t, LiveNow(t, rest), e);
      UsableMore(ArchivesOf(t, rest), Written(t, LiveNow(t, rest), e));
      if e.Added? || e.Unarchived? {
        HasRevision(t, LiveNow(t, rest), e);
      } else {
        SomeWindow(t, rest);
      }
    }
  }

  lemma HasRevision(t: Targets, live: Live, e: Event)
    requires e.Added? || e.Unarchived?
    ensures Effect(t, live, e).revision.Some?
  {
    hide Filled;
  }

  lemma NothingGiven(t: Targets)
    ensures Reconstruction([]).Err?
  {
  }

  /** The usable archives of an intact history, in whatever order they are given, are reconstructed exactly when every
      clearing that was followed by a window of the same revision found nothing held, and the last window left the
      accumulator ready. The result is what that window left. */
  lemma ReplayOfUsable(t: Targets, events: seq<Event>, given: seq<Archive>)
    requires TargetsOk(t) && Intact(events) && Chronological(ArchivesOf(t, events))
    requires multiset(given) == multiset(UsableOf(ArchivesOf(t, events)))
    ensures Reconstruction(given).Ok? <==> given != [] && Harmless(t, events) && LiveReady(t, LastLive(t, events))
    ensures Reconstruction(given).Ok? ==>
              var starts := StartsOf(UsableOf(ArchivesOf(t, events)));
              Reconstruction(given).value == RebuiltFrom(t, LastLive(t, events), starts)
  {
    hide AbsorbAll, ArchivesOf, LastLive, LiveNow, Harmless, Finish, Mirrors, LiveReady, RebuiltFrom, StartsOf, Bounded,
         UsableOf, Intact;
    var usable := UsableOf(ArchivesOf(t, events));
    if given == [] {
      NothingGiven(t);
    } else {
      assert given[0] in multiset(given) && given[0] in multiset(usable) && given[0] in usable;
      UsableChronological(ArchivesOf(t, events));
      SortRestores(usable, given);
      EventsMirror(t, events);
      SomeWindow(t, events);
      AlwaysBounded(t, events);
      if Harmless(t, events) {
        MirrorOutcome(t, LastLive(t, events), AbsorbAll(usable).value);
      }
    }
  }

  /** All archives of a history, in whatever order they are given, are reconstructed exactly when none of them is of an
      aborted or mixed window, of one without a checkpoint or of one whose archive failed, every clearing that was
      followed by a window of the same revision found nothing held, and the last window left the accumulator ready. */
  lemma ReplayAcrossResets(t: Targets, events: seq<Event>, given: seq<Archive>)
    requires TargetsOk(t) && Chronological(ArchivesOf(t, events))
    requires multiset(given) == multiset(ArchivesOf(t, events))
    ensures Reconstruction(given).Ok? <==>
              given != [] && Readable(events) && Harmless(t, events) && LiveReady(t, LastLive(t, events))
    ensures Reconstruction(given).Ok? ==>
              Reconstruction(given).value == RebuiltFrom(t, LastLive(t, events), StartsOf(ArchivesOf(t, events)))
  {
    hide AbsorbAll, ArchivesOf, LastLive, LiveNow, Harmless, Finish, LiveReady, RebuiltFrom, StartsOf, UsableOf;
    ReadableIff(t, events);
    if Readable(events) {
      ReplayOfUsable(t, events, given);
    } else {
      SortRestores(ArchivesOf(t, events), given);
      UnusableRefuses(ArchivesOf(t, events));
    }
  }

  // ---------------------------------------------------------------- since the last clearing

  /** After a clearing the accumulator and its archives go on as if it were new. */
  lemma {:induction false} SinceClearing(t: Targets, front: seq<Event>, later: seq<Event>)
    requires LiveNow(t, front) == Initial(t)
    ensures LiveNow(t, front + later) == LiveNow(t, later)
    ensures ArchivesOf(t, front + later) == ArchivesOf(t, front) + ArchivesOf(t, later)
  {
    hide *;
    if later == [] {
      NoEvents(t);
      assert front + later == front && ArchivesOf(t, front) + [] == ArchivesOf(t, front);
    } else {
      var rest, e := later[..|later| - 1], later[|later| - 1];
      SinceClearing(t, front, rest);
      assert later == rest + [e] && front + later == (front + rest) + [e];
      Unfold(t, front + rest, e);
      Unfold(t, rest, e);
      var written := Written(t, LiveNow(t, rest), e);
      assert ArchivesOf(t, front) + ArchivesOf(t, rest) + written
          == ArchivesOf(t, front) + (ArchivesOf(t, rest) + written);
    }
  }

  predicate Uncleared(events: seq<Event>) { forall e :: e in events ==> !Clears(e) }

  lemma {:induction false} UnclearedFacts(t: Targets, events: seq<Event>)
    requires Uncleared(events)
    ensures Harmless(t, events) && !Interrupted(events) && LastLive(t, events) == LiveNow(t, events)
  {
    LastLiveFacts(t, events);
    if events != [] {
      var rest := events[..|events| - 1];
      UnclearedFacts(t, rest);
      hide LastLive, LiveNow, HoldsNothing;
    }
  }

  lemma ClearedIsInitial(t: Targets, front: seq<Event>)
    requires front != [] && Clears(front[|front| - 1])
    ensures LiveNow(t, front) == Initial(t)
  {
  }

  /** The usable archives written since the last clearing, in whatever order they are given, rebuild exactly what the
      accumulator holds now, if it is ready and no archive failed since then. All archives since then do so exactly
      when, in addition, all are usable. What happened before the clearing does not matter. */
  lemma ReplaySinceReset(t: Targets, front: seq<Event>, later: seq<Event>, since: seq<Archive>,
                         usable: seq<Archive>, all: seq<Archive>)
    requires TargetsOk(t) && front != [] && Clears(front[|front| - 1]) && Uncleared(later) && Intact(later)
    requires ArchivesOf(t, front + later) == ArchivesOf(t, front) + since && Chronological(since)
    requires multiset(usable) == multiset(UsableOf(since)) && multiset(all) == multiset(since)
    ensures var now := LiveNow(t, front + later);
            && (Reconstruction(usable).Ok? <==> usable != [] && LiveReady(t, now))
            && (Reconstruction(all).Ok? <==> all != [] && Readable(later) && LiveReady(t, now))
            && (Reconstruction(usable).Ok? ==>
                  Reconstruction(usable).value == RebuiltFrom(t, now, StartsOf(UsableOf(since))))
            && (Reconstruction(all).Ok? ==> Reconstruction(all).value == RebuiltFrom(t, now, StartsOf(since)))
  {
    hide *;
    ClearedIsInitial(t, front);
    SinceClearing(t, front, later);
    var before := ArchivesOf(t, front);
    assert (before + since)[|before|..] == since && (before + ArchivesOf(t, later))[|before|..] == ArchivesOf(t, later);
    UnclearedFacts(t, later);
    ReplayOfUsable(t, later, usable);
    ReplayAcrossResets(t, later, all);
  }

  /** Once a batch was trained on and cleared, any further window of the same revision makes the archives as a whole
      unusable, whatever is added after it. */
  lemma TrainedThenContinued(t: Targets, events: seq<Event>, w: Window, later: seq<Event>, given: seq<Archive>)
    requires TargetsOk(t) && events != [] && events[|events| - 1].Added?
    requires LiveReady(t, LiveNow(t, events)) && exists env :: env in t.of && t.of[env] > 0
    requires LiveNow(t, events).revision == Some(w.revision)
    requires var all := events + [Cleared] + [Added(w)] + later;
             Chronological(ArchivesOf(t, all)) && multiset(given) == multiset(ArchivesOf(t, all))
    ensures Reconstruction(given).Err?
  {
    hide *;
    var cleared := events + [Cleared];
    ReadyHolds(t, LiveNow(t, events));
    WindowIsLast(t, events);
    Unfold(t, events, Cleared);
    Unfold(t, cleared, Added(w));
    NotAdmitted(t, cleared, w);
    HarmStays(t, cleared + [Added(w)], later);
    ReplayAcrossResets(t, cleared + [Added(w)] + later, given);
  }

  lemma WindowIsLast(t: Targets, events: seq<Event>)
    requires events != [] && events[|events| - 1].Added?
    ensures LastLive(t, events) == LiveNow(t, events) && Clears(Cleared)
  {
  }

  lemma NotAdmitted(t: Targets, rest: seq<Event>, w: Window)
    requires Interrupted(rest) && LastLive(t, rest).revision == Some(w.revision) && !HoldsNothing(t, LastLive(t, rest))
    ensures !Admits(t, rest, Added(w))
  {
  }

  lemma ReadyHolds(t: Targets, live: Live)
    requires LiveReady(t, live) && exists env :: env in t.of && t.of[env] > 0
    ensures !HoldsNothing(t, live)
  {
    var env :| env in t.of && t.of[env] > 0;
    assert |Held(live.groups, env)| > 0;
  }

  lemma {:induction false} HarmStays(t: Targets, events: seq<Event>, later: seq<Event>)
    requires !Harmless(t, events)
    ensures !Harmless(t, events + later)
  {
    hide *;
    if later == [] {
      assert events + later == events;
    } else {
      var front, e := later[..|later| - 1], later[|later| - 1];
      HarmStays(t, events, front);
      assert events + later == (events + front) + [e];
      Unfold(t, events + front, e);
    }
  }

  // ---------------------------------------------------------------- numbers only

  /** The groups that a replay holds after the archive of a window, if it accepts that archive. */
  ghost predicate Extends(t: Targets, kept: Retained, before: Retained, w: Window, after: Retained)
  {
    && after.Keys == t.of.Keys
    && forall env :: env in t.of ==> Held(after, env) == Held(kept, env) + Accepted(t, before, w, env)
  }

  lemma ExtendsBy(t: Targets, kept: Retained, before: Retained, w: Window, env: string)
    requires kept.Keys == t.of.Keys && env in t.of
    ensures var added := AddedBy(t, before, w, t.of.Keys);
            && env in added && |OfEnv(w.batch, env)| >= added[env]
            && Held(Extended(kept, w.batch, added), env) == Held(kept, env) + Accepted(t, before, w, env)
            && Extended(kept, w.batch, added).Keys == t.of.Keys
            && Held(Filled(t, before, w, t.of.Keys), env) == Held(before, env) + Accepted(t, before, w, env)
  {
    AcceptedIsSupplied(t, before, w, env);
    hide Accepted, Slice, OfEnv;
  }

  lemma CountsCompared(t: Targets, kept: Retained, groups: Retained)
    ensures CountsMatch(kept, CountsOf(t, groups)) <==>
              forall env :: env in t.of ==> |Held(kept, env)| == |Held(groups, env)|
  {
    hide Held;
    var counts := CountsOf(t, groups);
    assert forall env :: env in t.of <==> env in counts;
    assert forall env :: env in t.of ==> counts[env] == |Held(groups, env)|;
  }

  /** The replay compares numbers only. Whatever it holds and whatever the accumulator held, it accepts the archive of a
      window exactly when the numbers are the same, and then adds the groups of the window to its own. */
  lemma AbsorbIff(t: Targets, s: Replay, live: Live, w: Window)
    requires TargetsOk(t) && w.revision != "" && OpenedFor(t, s, live, w).Keys == t.of.Keys
    ensures var kept, before := OpenedFor(t, s, live, w), Before(t, live, w);
            var r := Absorb(s, ArchiveOf(t, live, w));
            && (r.Ok? <==> forall env :: env in t.of ==> |Held(kept, env)| == |Held(before, env)|)
            && (r.Ok? ==> Extends(t, kept, before, w, r.value.retained) && r.value.revision == Some(w.revision)
                          && r.value.order == t.order && r.value.targets == TargetCounts(t))
  {
    var kept, before := OpenedFor(t, s, live, w), Before(t, live, w);
    var added, filled := AddedBy(t, before, w, t.of.Keys), Filled(t, before, w, t.of.Keys);
    assert added.Keys == t.of.Keys && t.order[0] in t.of;
    hide *;
    CountsCompared(t, kept, before);
    CountsCompared(t, Extended(kept, w.batch, added), filled);
    forall env | env in t.of
      ensures |OfEnv(w.batch, env)| >= added[env] && Extended(kept, w.batch, added).Keys == t.of.Keys
      ensures Held(Extended(kept, w.batch, added), env) == Held(kept, env) + Accepted(t, before, w, env)
      ensures Held(filled, env) == Held(before, env) + Accepted(t, before, w, env)
    {
      ExtendsBy(t, kept, before, w, env);
    }
    ExtendsAll(t, kept, before, w, Extended(kept, w.batch, added));
    AbsorbParts(t, s, live, w);
  }

  lemma ExtendsAll(t: Targets, kept: Retained, before: Retained, w: Window, after: Retained)
    requires after.Keys == t.of.Keys
    requires forall env :: env in t.of ==> Held(after, env) == Held(kept, env) + Accepted(t, before, w, env)
    ensures Extends(t, kept, before, w, after)
  {
    hide Held, Accepted;
  }

  lemma AbsorbParts(t: Targets, s: Replay, live: Live, w: Window)
    requires w.revision != "" && OpenedFor(t, s, live, w).Keys == t.of.Keys
    requires var added := AddedBy(t, Before(t, live, w), w, t.of.Keys);
             added.Keys == t.of.Keys && forall env :: env in t.of ==> |OfEnv(w.batch, env)| >= added[env]
    ensures var kept, before := OpenedFor(t, s, live, w), Before(t, live, w);
            var after := Extended(kept, w.batch, AddedBy(t, before, w, t.of.Keys));
            Absorb(s, ArchiveOf(t, live, w))
            == if !CountsMatch(kept, CountsOf(t, before)) then Err("missing")
               else if !CountsMatch(after, CountsOf(t, Filled(t, before, w, t.of.Keys))) then Err("mismatch")
               else Ok(Replay(after, Some(w.revision), t.order, TargetCounts(t), s.windows + [w.start]))
  {
    hide Opened, AddedBy, Before, Extended, CountsMatch, CountsOf, Filled, OfEnv, TargetCounts;
  }

  /** So an accepted archive leaves the replay with what the accumulator held exactly when the replay had the same
      groups before it, and not only as many. */
  lemma AcceptedMirrorsIff(t: Targets, s: Replay, live: Live, w: Window)
    requires TargetsOk(t) && w.revision != "" && OpenedFor(t, s, live, w).Keys == t.of.Keys
    requires Before(t, live, w).Keys == t.of.Keys && Absorb(s, ArchiveOf(t, live, w)).Ok?
    ensures Mirrors(t, Absorb(s, ArchiveOf(t, live, w)).value, After(t, live, w)) <==>
              SameGroups(t, OpenedFor(t, s, live, w), Before(t, live, w))
  {
    var kept, before := OpenedFor(t, s, live, w), Before(t, live, w);
    var after := After(t, live, w);
    FilledKeys(t, before, w);
    hide Absorb, ArchiveOf, OpenedFor, Before, Accepted, Held, Filled, TargetsOk;
    AbsorbIff(t, s, live, w);
    var r := Absorb(s, ArchiveOf(t, live, w)).value;
    forall env | env in t.of
      ensures Held(r.retained, env) == Held(after.groups, env) <==> Held(kept, env) == Held(before, env)
    {
      ExtendsBy(t, kept, before, w, env);
      SameFront(Held(kept, env), Held(before, env), Accepted(t, before, w, env));
    }
  }

  lemma SameFront(a: seq<Group>, b: seq<Group>, rest: seq<Group>)
    ensures a + rest == b + rest <==> a == b
  {
    if a + rest == b + rest {
      assert |a| == |b|;
      assert a == (a + rest)[..|a|] && b == (b + rest)[..|b|];
    }
  }
}

/** Small histories on which a replay does not do what one would expect. */
module AccumulatorExamples {
  import opened Wrappers
  import opened AccumulatorReplay
  import opened AccumulatorProducer
  import opened AccumulatorInverse
  import opened AccumulatorResets

  // ---------------------------------------------------------------- one group a window

  const ONE := Targets(["e"], map["e" := 1])

  /** A window with one group. */
  function OneUnder(start: int, revision: string): Window { Window(start, [Group("e", start)], {"e"}, revision, true) }

  function OneGroup(start: int): Window { OneUnder(start, "r") }

  /** A window without groups. */
  function NoGroup(start: int): Window { Window(start, [], {}, "r", true) }

  function Holding(start: int): Live { Live(map["e" := [Group("e", start)]], Some("r")) }

  lemma OneTaken(live: Live, start: int, revision: string)
    requires Before(ONE, live, OneUnder(start, revision)) == Initial(ONE).groups
    ensures After(ONE, live, OneUnder(start, revision)) == Live(map["e" := [Group("e", start)]], Some(revision))
    ensures LiveReady(ONE, Live(map["e" := [Group("e", start)]], Some(revision)))
  {
    var w, before := OneUnder(start, revision), Initial(ONE).groups;
    assert OfEnv(w.batch, "e") == w.batch by { assert w.batch[1..] == []; }
    assert Accepted(ONE, before, w, "e") == w.batch;
    assert Held(before, "e") + w.batch == w.batch;
    hide Accepted, Before, OfEnv, Held;
    assert ONE.of.Keys == {"e"};
    assert Filled(ONE, before, w, ONE.of.Keys) == map["e" := w.batch];
  }

  lemma OneGroupTaken(start: int)
    ensures After(ONE, Initial(ONE), OneGroup(start)) == Holding(start) && LiveReady(ONE, Holding(start))
  {
    InitialHolds(ONE, OneGroup(start));
    hide After, Before, Initial, LiveReady;
    OneTaken(Initial(ONE), start, "r");
  }

  lemma OneIsOk()
    ensures TargetsOk(ONE) && "e" in ONE.of && ONE.of["e"] > 0
  {
    assert ONE.order[0] == "e";
  }

  /** A first window that fills the batch. */
  lemma Filling(start: int)
    ensures var events := [Added(OneGroup(start))];
            && LiveNow(ONE, events) == LastLive(ONE, events) == Holding(start) && LiveReady(ONE, Holding(start))
            && ArchivesOf(ONE, events) == [ArchiveOf(ONE, Initial(ONE), OneGroup(start))]
            && Harmless(ONE, events) && !Interrupted(events)
  {
    assert [] + [Added(OneGroup(start))] == [Added(OneGroup(start))];
    assert Effect(ONE, Initial(ONE), Added(OneGroup(start))) == After(ONE, Initial(ONE), OneGroup(start));
    assert Written(ONE, Initial(ONE), Added(OneGroup(start))) == [ArchiveOf(ONE, Initial(ONE), OneGroup(start))];
    assert Clears(Added(OneGroup(start))) == false;
    hide *;
    NoEvents(ONE);
    Unfold(ONE, [], Added(OneGroup(start)));
    assert [] + [ArchiveOf(ONE, Initial(ONE), OneGroup(start))] == [ArchiveOf(ONE, Initial(ONE), OneGroup(start))];
    OneGroupTaken(start);
    LastLiveFacts(ONE, []);
    FirstAdmitted(start);
    LastLiveFacts(ONE, [Added(OneGroup(start))]);
  }

  lemma FirstAdmitted(start: int)
    ensures Admits(ONE, [], Added(OneGroup(start)))
  {
  }

  /** Two windows of one checkpoint that each fill the batch, with a training step between them. The accumulator is
      ready, and its own archives are refused. */
  lemma TrainedTwiceRefused()
    ensures var events := [Added(OneGroup(1)), Cleared, Added(OneGroup(2))];
            LiveReady(ONE, LiveNow(ONE, events)) && Reconstruction(ArchivesOf(ONE, events)).Err?
  {
    var first, events := [Added(OneGroup(1))], [Added(OneGroup(1)), Cleared, Added(OneGroup(2))];
    assert first + [Cleared] + [Added(OneGroup(2))] + [] == events == first + [Cleared] + [Added(OneGroup(2))];
    TrainedTwice();
    hide *;
    OneIsOk();
    Filling(1);
    TrainedThenContinued(ONE, first, OneGroup(2), [], ArchivesOf(ONE, events));
  }

  lemma TrainedTwice()
    ensures var events := [Added(OneGroup(1))] + [Cleared] + [Added(OneGroup(2))];
            && LiveNow(ONE, events) == Holding(2) && LiveReady(ONE, Holding(2))
            && Chronological(ArchivesOf(ONE, events)) && Holding(1).revision == Some(OneGroup(2).revision)
  {
    var first := [Added(OneGroup(1))];
    OneGroupTaken(2);
    Filling(1);
    Unfold(ONE, first, Cleared);
    Unfold(ONE, first + [Cleared], Added(OneGroup(2)));
    hide LiveNow, ArchivesOf, After, MetaOf, LiveReady, Initial, Interrupted, LastLive, Harmless, Admits;
  }

  /** One aborted window after a window that filled the batch, with nothing cleared. The accumulator is ready, its
      archives are refused, and without the archive of the aborted window they are accepted. */
  lemma AbortedWindowRefused()
    ensures var events := [Added(OneGroup(1))] + [Aborted(2)];
            && LiveReady(ONE, LiveNow(ONE, events)) && Harmless(ONE, events)
            && Reconstruction(ArchivesOf(ONE, events)).Err?
            && Reconstruction(UsableOf(ArchivesOf(ONE, events))).Ok?
  {
    hide *;
    var first := [Added(OneGroup(1))];
    Filling(1);
    Unfold(ONE, first, Aborted(2));
    NotAdded(ONE, first, Aborted(2));
    AbortedFacts();
    UsableMore([ArchiveOf(ONE, Initial(ONE), OneGroup(1))], [Tombstone(2)]);
    OneIsOk();
    var archives := ArchivesOf(ONE, first + [Aborted(2)]);
    ReplayAcrossResets(ONE, first + [Aborted(2)], archives);
    ReplayOfUsable(ONE, first + [Aborted(2)], UsableOf(archives));
  }

  lemma AbortedFacts()
    ensures var events, archive := [Added(OneGroup(1))] + [Aborted(2)], ArchiveOf(ONE, Initial(ONE), OneGroup(1));
            && !Readable(events) && Intact(events)
            && Effect(ONE, Holding(1), Aborted(2)) == Holding(1)
            && Written(ONE, Holding(1), Aborted(2)) == [Tombstone(2)]
            && Chronological([archive] + [Tombstone(2)])
            && UsableOf([archive]) == [archive] && UsableOf([Tombstone(2)]) == []
  {
    WrittenUsable(ONE, Initial(ONE), Added(OneGroup(1)));
    WrittenUsable(ONE, Holding(1), Aborted(2));
    assert OneGroup(1).revision != "";
    hide UsableOf, MetaOf, Initial, Holding;
    assert ([Added(OneGroup(1))] + [Aborted(2)])[1] == Aborted(2);
  }

  /** A window, and then one of another checkpoint: the archive of the first had added a group, and its absence goes
      unnoticed. */
  lemma MissingArchiveUnnoticed()
    ensures var windows := [OneGroup(1), OneUnder(2, "q")];
            && HistoryOk(windows) && !AddsNothing(ONE, LiveAfter(ONE, []), windows[0])
            && Reconstruction(Without(ONE, windows, 0)).Ok?
  {
    hide *;
    var windows := [OneGroup(1), OneUnder(2, "q")];
    assert windows[..0] == [];
    TwoCheckpoints();
    TwoOk();
    OneIsOk();
    MissingArchiveNoticed(ONE, windows, 0, Without(ONE, windows, 0));
  }

  lemma TwoCheckpoints()
    ensures var windows := [OneGroup(1), OneUnder(2, "q")];
            LiveReady(ONE, LiveAfter(ONE, windows)) && !AddsNothing(ONE, LiveAfter(ONE, []), windows[0])
  {
    var windows := [OneGroup(1), OneUnder(2, "q")];
    assert windows[..1] == [OneGroup(1)] && [OneGroup(1)][..0] == [];
    FirstAdds();
    assert Before(ONE, Holding(1), OneUnder(2, "q")) == Initial(ONE).groups;
    hide After, Before, Initial, LiveReady, Holding, AddsNothing;
    LastWindow(ONE, windows);
    LastWindow(ONE, [OneGroup(1)]);
    NoWindows(ONE);
    OneGroupTaken(1);
    OneTaken(Holding(1), 2, "q");
  }

  lemma TwoOk()
    ensures HistoryOk([OneGroup(1), OneUnder(2, "q")]) && OneGroup(1).revision != OneUnder(2, "q").revision
  {
    assert OneGroup(1).revision[0] == 'r' && OneUnder(2, "q").revision[0] == 'q';
  }

  lemma FirstAdds()
    ensures !AddsNothing(ONE, LiveAfter(ONE, []), OneGroup(1))
  {
    var w := OneGroup(1);
    assert OfEnv(w.batch, "e") == w.batch by { assert w.batch[1..] == []; }
    assert "e" in ONE.of && Accepted(ONE, Before(ONE, Initial(ONE), w), w, "e") == w.batch;
  }

  // ---------------------------------------------------------------- a failed archive

  lemma HoldingFacts()
    ensures Before(ONE, Holding(2), NoGroup(4)) == Holding(2).groups && Held(Holding(2).groups, "e") == [Group("e", 2)]
    ensures Accepted(ONE, Holding(2).groups, NoGroup(4), "e") == []
    ensures Filled(ONE, Holding(2).groups, NoGroup(4), ONE.of.Keys) == Holding(2).groups
    ensures Held(Holding(1).groups, "e") == [Group("e", 1)] && ONE.of.Keys == {"e"}
  {
    assert Accepted(ONE, Holding(2).groups, NoGroup(4), "e") == [];
    hide Accepted;
    assert Held(Holding(2).groups, "e") + [] == Held(Holding(2).groups, "e");
  }

  lemma HoldingKept()
    ensures After(ONE, Holding(2), NoGroup(4)) == Holding(2)
  {
    HoldingFacts();
    hide Filled, Accepted;
  }

  lemma StaleOpens(s: Replay)
    requires Mirrors(ONE, s, Holding(1))
    ensures var kept := OpenedFor(ONE, s, Holding(2), NoGroup(4));
            kept.Keys == ONE.of.Keys && Held(kept, "e") == [Group("e", 1)]
  {
    HoldingFacts();
    assert TargetCounts(ONE).Keys == ONE.of.Keys;
    hide Filled, Accepted, AddedBy, CountsOf, TargetCounts;
  }

  /** A replay that holds an earlier group accepts a window without groups, while the accumulator holds another group of
      the same checkpoint. */
  lemma StaleAccepted(s: Replay)
    requires Mirrors(ONE, s, Holding(1))
    ensures var r := Absorb(s, ArchiveOf(ONE, Holding(2), NoGroup(4)));
            r.Ok? && Mirrors(ONE, r.value, Holding(1))
  {
    assert NoGroup(4).revision == "r" && Holding(1).revision == Some("r") && Holding(1).groups.Keys == {"e"};
    hide *;
    OneIsOk();
    HoldingFacts();
    StaleOpens(s);
    AbsorbIff(ONE, s, Holding(2), NoGroup(4));
    var r := Absorb(s, ArchiveOf(ONE, Holding(2), NoGroup(4)));
    var kept := OpenedFor(ONE, s, Holding(2), NoGroup(4));
    StaleMirrors(kept, r.value);
  }

  lemma StaleMirrors(kept: Retained, s: Replay)
    requires Extends(ONE, kept, Holding(2).groups, NoGroup(4), s.retained) && Held(kept, "e") == [Group("e", 1)]
    requires Accepted(ONE, Holding(2).groups, NoGroup(4), "e") == []
    requires s.revision == Some("r") && s.order == ONE.order && s.targets == TargetCounts(ONE)
    ensures Mirrors(ONE, s, Holding(1))
  {
    assert Held(kept, "e") + [] == Held(kept, "e");
    hide Accepted, TargetCounts;
  }

  /** A training step, then a window whose archive failed, then a window without groups: the usable archives are
      accepted and rebuild the group that was trained on before, not the one that the accumulator holds. */
  lemma FailedArchiveUnnoticed()
    ensures var events := [Added(OneGroup(1))] + [Cleared] + [Unarchived(OneGroup(2))] + [Added(NoGroup(4))];
            var r := Reconstruction(UsableOf(ArchivesOf(ONE, events)));
            && LiveNow(ONE, events) == Holding(2) && LiveReady(ONE, Holding(2))
            && r.Ok? && r.value.batches == [[Group("e", 1)]]
  {
    FailedArchives();
    assert OneGroup(1).revision != "";
    hide *;
    var last := ArchiveOf(ONE, Holding(2), NoGroup(4));
    var first := [ArchiveOf(ONE, Initial(ONE), OneGroup(1))];
    OneGroupTaken(1);
    OneGroupTaken(2);
    EmptyMirrors(ONE);
    OneMoreMirrors(ONE, [], Initial(ONE), OneGroup(1));
    assert [] + first == first;
    AbsorbOneMore(first, last);
    StaleAccepted(AbsorbAll(first).value);
    StaleOutcome(first + [last]);
  }

  lemma StaleOutcome(archives: seq<Archive>)
    requires archives == [ArchiveOf(ONE, Initial(ONE), OneGroup(1))] + [ArchiveOf(ONE, Holding(2), NoGroup(4))]
    requires AbsorbAll(archives).Ok? && Mirrors(ONE, AbsorbAll(archives).value, Holding(1))
              && LiveReady(ONE, Holding(1))
    ensures Reconstruction(archives).Ok? && Reconstruction(archives).value.batches == [[Group("e", 1)]]
  {
    hide AbsorbAll, MetaOf, Mirrors, Bounded, HeldInOrder, LiveReady, Finish, TargetsOk, HeldCounts, TargetCounts;
    OneIsOk();
    HoldingOne();
    SortRestores(archives, archives);
    MirrorOutcome(ONE, Holding(1), AbsorbAll(archives).value);
  }

  lemma HoldingOne()
    ensures Bounded(ONE, Holding(1)) && HeldInOrder(ONE, Holding(1)) == [[Group("e", 1)]]
  {
  }

  lemma FailedArchives()
    ensures var events := [Added(OneGroup(1))] + [Cleared] + [Unarchived(OneGroup(2))] + [Added(NoGroup(4))];
            && LiveNow(ONE, events) == Holding(2)
            && UsableOf(ArchivesOf(ONE, events))
               == [ArchiveOf(ONE, Initial(ONE), OneGroup(1))] + [ArchiveOf(ONE, Holding(2), NoGroup(4))]
  {
    Effects();
    hide *;
    var one, cleared := [Added(OneGroup(1))], [Added(OneGroup(1))] + [Cleared];
    var failed := cleared + [Unarchived(OneGroup(2))];
    Filling(1);
    Unfold(ONE, one, Cleared);
    Unfold(ONE, cleared, Unarchived(OneGroup(2)));
    Unfold(ONE, failed, Added(NoGroup(4)));
    UsableMore([], [ArchiveOf(ONE, Initial(ONE), OneGroup(1))]);
    UsableMore(ArchivesOf(ONE, one), Written(ONE, Holding(1), Cleared));
    UsableMore(ArchivesOf(ONE, cleared), Written(ONE, Initial(ONE), Unarchived(OneGroup(2))));
    UsableMore(ArchivesOf(ONE, failed), Written(ONE, Holding(2), Added(NoGroup(4))));
    var kept := [ArchiveOf(ONE, Initial(ONE), OneGroup(1))];
    assert kept + [] == kept;
  }

  /** What the four events do and what they leave. */
  lemma Effects()
    ensures Effect(ONE, Holding(1), Cleared) == Initial(ONE)
    ensures Effect(ONE, Initial(ONE), Unarchived(OneGroup(2))) == Holding(2)
    ensures Effect(ONE, Holding(2), Added(NoGroup(4))) == Holding(2)
    ensures UsableOf([ArchiveOf(ONE, Initial(ONE), OneGroup(1))]) == [ArchiveOf(ONE, Initial(ONE), OneGroup(1))]
    ensures var written := Written(ONE, Holding(1), Cleared); |written| <= 1 && UsableOf(written) == []
    ensures var written := Written(ONE, Initial(ONE), Unarchived(OneGroup(2)));
            |written| <= 1 && UsableOf(written) == []
    ensures var written := Written(ONE, Holding(2), Added(NoGroup(4)));
            |written| <= 1 && UsableOf(written) == [ArchiveOf(ONE, Holding(2), NoGroup(4))]
  {
    OneGroupTaken(2);
    HoldingKept();
    WrittenUsable(ONE, Initial(ONE), Added(OneGroup(1)));
    WrittenUsable(ONE, Holding(1), Cleared);
    WrittenUsable(ONE, Initial(ONE), Unarchived(OneGroup(2)));
    WrittenUsable(ONE, Holding(2), Added(NoGroup(4)));
    hide UsableOf, ArchiveOf, After, Initial, Holding;
  }
}

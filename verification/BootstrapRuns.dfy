/** Any number of runs of `publish_prepared` on one plan, with other writers appending commits between any two
    requests and acknowledgements that may be lost. */
module BootstrapRuns {
  import opened Wrappers
  import opened CheckpointHistory
  import opened BootstrapPublish

  datatype Commit = Commit(id: string, title: string, tree: Tree)

  /** How far a run has come. `Verifying` holds the revision that is to be confirmed as the child. */
  datatype Phase =
    | Begun
    | SourceChecked
    | AtParent
    | Observed(head: string)
    | HistoryChecked(head: string)
    | TreeChecked(head: string)
    | Receipt(head: string)
    | Stopped

  /** The shared history, newest first, the runs, and the commits that runs have made. */
  datatype World = World(history: seq<Commit>, runs: map<nat, Phase>, made: seq<string>)

  /** What the surroundings decide about a request that commits: the identifier of the commit, which files go
      to LFS, the order of the operations, and whether the answer arrives. */
  datatype Request = Request(id: string, lfs: set<Path>, ops: seq<Op>, acknowledged: bool)

  datatype Action =
    | Begin(run: nat)
    | Advance(run: nat, request: Request)
    | Stop(run: nat)
    | Append(commit: Commit)

  /** The listing at a revision: that commit and everything below it. */
  function From(h: seq<Commit>, id: string): seq<Commit>
  {
    if h == [] || h[0].id == id then h else From(h[1..], id)
  }

  function Listing(h: seq<Commit>): seq<Numbered>
  {
    seq(|h|, i requires 0 <= i < |h| => Numbered(h[i].id, h[i].title))
  }

  predicate Known(h: seq<Commit>, id: string) { exists c :: c in h && c.id == id }

  /** The checks before the head is read: the parent carries the prepared profile and number, the trees of the parent
      and of a base are complete models with complete weights, and a base does not bring metadata of its own. */
  predicate SourceOk(numberOf: string -> Option<nat>, plan: Plan, h: seq<Commit>)
  {
    && PlanOk(plan) && Known(h, plan.parent)
    && SourceNumber(numberOf, Listing(From(h, plan.parent)), plan.parent) == Ok(plan.sourceN)
    && TreesOk(plan, SourceTree(plan, h))
  }

  function SourceTree(plan: Plan, h: seq<Commit>): Tree
  {
    if From(h, plan.parent) == [] then map[] else From(h, plan.parent)[0].tree
  }

  /** `head` is the exact bootstrap child of the fenced parent and carries the next number. */
  predicate HistoryOk(numberOf: string -> Option<nat>, plan: Plan, h: seq<Commit>, head: string)
  {
    var listed := From(h, head);
    && |listed| >= 2
    && listed[0].id == head && listed[0].title == plan.message && listed[1].id == plan.parent
    && SourceNumber(numberOf, Listing(listed), head) == Ok(plan.sourceN + 1)
  }

  predicate TreeOk(plan: Plan, h: seq<Commit>, head: string)
  {
    && Known(h, head) && From(h, head) != []
    && IsModel(From(h, head)[0].tree)
    && TreeAccepted(plan, SourceTree(plan, h), From(h, head)[0].tree)
  }

  ghost predicate Init(w: World) { w.runs == map[] && w.made == [] && DistinctIds(w.history) }

  ghost predicate DistinctIds(h: seq<Commit>)
  {
    forall i, j :: 0 <= i < j < |h| ==> h[i].id != h[j].id
  }

  /** Every new commit gets an identifier that nobody has seen, and history only grows at its head. */
  ghost predicate Enabled(plan: Plan, w: World, a: Action)
  {
    match a
    case Begin(run) => run !in w.runs
    case Advance(run, q) =>
      run in w.runs && !Known(w.history, q.id) && IsOperationList(plan, SourceTree(plan, w.history), q.ops)
    case Stop(run) => run in w.runs
    case Append(c) => !Known(w.history, c.id)
  }

  function Next(numberOf: string -> Option<nat>, plan: Plan, w: World, a: Action): World
  {
    match a
    case Begin(run) => w.(runs := w.runs[run := Begun])
    case Advance(run, q) => if run in w.runs then Work(numberOf, plan, w, run, q) else w
    case Stop(run) => w.(runs := w.runs[run := Stopped])
    case Append(c) => w.(history := [c] + w.history)
  }

  /** One request of one run. The commit is a compare-and-swap on the head; a lost acknowledgement stops the
      run although the commit was made. */
  function Work(numberOf: string -> Option<nat>, plan: Plan, w: World, run: nat, q: Request): World
    requires run in w.runs
  {
    var h := w.history;
    match w.runs[run]
    case Begun => Move(w, run, if SourceOk(numberOf, plan, h) then SourceChecked else Stopped)
    case SourceChecked =>
      Move(w, run, if h == [] then Stopped else if h[0].id == plan.parent then AtParent else Observed(h[0].id))
    case AtParent =>
      if h == [] || h[0].id != plan.parent then Move(w, run, Stopped) else
      var tree := ApplyAll(plan, q.lfs, h[0].tree, q.ops);
      if tree.None? then Move(w, run, Stopped) else
      World([Commit(q.id, plan.message, tree.value)] + h,
            w.runs[run := if q.acknowledged then Observed(q.id) else Stopped],
            w.made + [q.id])
    case Observed(head) => Move(w, run, if HistoryOk(numberOf, plan, h, head) then HistoryChecked(head) else Stopped)
    case HistoryChecked(head) => Move(w, run, if TreeOk(plan, h, head) then TreeChecked(head) else Stopped)
    case TreeChecked(head) => Move(w, run, if h != [] && h[0].id == head then Receipt(head) else Stopped)
    case _ => w
  }

  function Move(w: World, run: nat, phase: Phase): World { w.(runs := w.runs[run := phase]) }

  // ---------------------------------------------------------------- histories

  lemma FromAppend(h: seq<Commit>, c: Commit, id: string)
    requires c.id != id
    ensures From([c] + h, id) == From(h, id)
  {
    assert ([c] + h)[1..] == h;
  }

  lemma {:induction false} FromKnown(h: seq<Commit>, id: string)
    ensures Known(h, id) <==> From(h, id) != []
    ensures From(h, id) != [] ==> From(h, id)[0].id == id
    ensures forall c :: c in From(h, id) ==> c in h
  {
    if h != [] && h[0].id != id {
      FromKnown(h[1..], id);
      assert h == [h[0]] + h[1..];
    } else if h != [] {
      assert h[0] in h;
    }
  }

  /** In a linear history a commit has one child. */
  lemma {:induction false} OneChild(h: seq<Commit>, parent: string, x: string, y: string)
    requires DistinctIds(h)
    requires |From(h, x)| >= 2 && From(h, x)[1].id == parent && |From(h, y)| >= 2 && From(h, y)[1].id == parent
    ensures x == y
  {
    if h != [] && x != y {
      if h[0].id == x {
        DeepTail(h[1..], y);
      } else if h[0].id == y {
        DeepTail(h[1..], x);
      } else {
        OneChild(h[1..], parent, x, y);
      }
    }
  }

  lemma {:induction false} DeepTail(h: seq<Commit>, id: string)
    requires DistinctIds(h) && |From(h, id)| >= 2
    ensures From(h, id)[1].id != h[0].id
  {
    if h[0].id != id {
      var c := From(h, id)[1];
      FromKnown(h[1..], id);
      assert c in From(h[1..], id);
      var i :| 0 <= i < |h[1..]| && h[1..][i] == c;
    }
  }

  // ---------------------------------------------------------------- the invariant

  ghost predicate PhaseOk(numberOf: string -> Option<nat>, plan: Plan, h: seq<Commit>, p: Phase)
  {
    match p
    case SourceChecked => SourceOk(numberOf, plan, h)
    case AtParent => SourceOk(numberOf, plan, h)
    case Observed(head) => SourceOk(numberOf, plan, h) && Known(h, head)
    case HistoryChecked(head) => SourceOk(numberOf, plan, h) && HistoryOk(numberOf, plan, h, head)
    case TreeChecked(head) => Confirmed(numberOf, plan, h, head)
    case Receipt(head) => Confirmed(numberOf, plan, h, head)
    case _ => true
  }

  /** Everything a receipt vouches for. */
  ghost predicate Confirmed(numberOf: string -> Option<nat>, plan: Plan, h: seq<Commit>, head: string)
  {
    SourceOk(numberOf, plan, h) && HistoryOk(numberOf, plan, h, head) && TreeOk(plan, h, head)
  }

  /** A commit made by a run sits directly on the parent and holds the published tree. */
  ghost predicate MadeOk(numberOf: string -> Option<nat>, plan: Plan, h: seq<Commit>, id: string)
  {
    && SourceOk(numberOf, plan, h)
    && |From(h, id)| >= 2
    && From(h, id)[0].id == id && From(h, id)[0].title == plan.message && From(h, id)[1].id == plan.parent
    && TreeOk(plan, h, id)
  }

  ghost predicate Inv(numberOf: string -> Option<nat>, plan: Plan, w: World)
  {
    && DistinctIds(w.history)
    && (forall run :: run in w.runs ==> PhaseOk(numberOf, plan, w.history, w.runs[run]))
    && |w.made| <= 1
    && (w.made != [] ==>
          && w.history != [] && w.history[0].id != plan.parent
          && MadeOk(numberOf, plan, w.history, w.made[0]))
  }

  lemma AppendKeepsFacts(numberOf: string -> Option<nat>, plan: Plan, h: seq<Commit>, c: Commit, id: string)
    requires !Known(h, c.id)
    ensures SourceOk(numberOf, plan, h) ==>
              SourceOk(numberOf, plan, [c] + h) && From([c] + h, plan.parent) == From(h, plan.parent)
    ensures Known(h, id) ==> Known([c] + h, id) && From([c] + h, id) == From(h, id)
  {
    var h' := [c] + h;
    assert forall d :: d in h ==> d in h';
    if SourceOk(numberOf, plan, h) {
      FromAppend(h, c, plan.parent);
    }
    if Known(h, id) {
      FromAppend(h, c, id);
    }
  }

  lemma AppendKeepsPhase(numberOf: string -> Option<nat>, plan: Plan, h: seq<Commit>, c: Commit, p: Phase)
    requires !Known(h, c.id) && PhaseOk(numberOf, plan, h, p)
    ensures PhaseOk(numberOf, plan, [c] + h, p)
  {
    var id := if p.Observed? || p.HistoryChecked? || p.TreeChecked? || p.Receipt? then p.head else plan.parent;
    FromKnown(h, id);
    AppendKeepsFacts(numberOf, plan, h, c, id);
  }

  lemma AppendKeeps(numberOf: string -> Option<nat>, plan: Plan, w: World, c: Commit)
    requires Inv(numberOf, plan, w) && !Known(w.history, c.id)
    requires w.made != [] ==> c.id != plan.parent
    ensures Inv(numberOf, plan, w.(history := [c] + w.history))
  {
    var h' := [c] + w.history;
    forall run | run in w.runs
      ensures PhaseOk(numberOf, plan, h', w.runs[run])
    {
      AppendKeepsPhase(numberOf, plan, w.history, c, w.runs[run]);
    }
    forall i | 0 <= i < |w.history|
      ensures w.history[i].id != c.id
    {
      assert w.history[i] in w.history;
    }
    if w.made != [] {
      FromKnown(w.history, w.made[0]);
      AppendKeepsFacts(numberOf, plan, w.history, c, w.made[0]);
    }
  }

  /** The compare-and-swap puts the commit directly on the parent, with the published tree. */
  lemma CommitLands(numberOf: string -> Option<nat>, plan: Plan, h: seq<Commit>, q: Request)
    requires DistinctIds(h) && SourceOk(numberOf, plan, h) && h != [] && h[0].id == plan.parent
    requires !Known(h, q.id) && IsOperationList(plan, h[0].tree, q.ops)
    ensures ApplyAll(plan, q.lfs, h[0].tree, q.ops) == Some(Published(plan, q.lfs, h[0].tree))
    ensures MadeOk(numberOf, plan, [Commit(q.id, plan.message, Published(plan, q.lfs, h[0].tree))] + h, q.id)
  {
    AnyOrderPublishes(plan, q.lfs, h[0].tree, q.ops);
    var commit := Commit(q.id, plan.message, Published(plan, q.lfs, h[0].tree));
    var h' := [commit] + h;
    assert From(h', q.id) == h' && commit in h' && h[0] in h;
    AppendKeepsFacts(numberOf, plan, h, commit, plan.parent);
    AcceptedIffPublished(plan, h[0].tree, commit.tree);
    assert SourceTree(plan, h) == h[0].tree && SourceTree(plan, h') == h[0].tree;
    hide Published, TreeAccepted, IsOperationList, IsModel;
    PublishedIsModel(plan, q.lfs, h[0].tree);
  }

  lemma CommitKeeps(numberOf: string -> Option<nat>, plan: Plan, w: World, run: nat, q: Request)
    requires Inv(numberOf, plan, w) && run in w.runs && w.runs[run] == AtParent
    requires w.history != [] && w.history[0].id == plan.parent && !Known(w.history, q.id)
    requires IsOperationList(plan, w.history[0].tree, q.ops)
    ensures Inv(numberOf, plan, Work(numberOf, plan, w, run, q))
  {
    var h := w.history;
    assert w.made == [];
    assert PhaseOk(numberOf, plan, h, AtParent) && h[0] in h;
    assert q.id != plan.parent;
    CommitLands(numberOf, plan, h, q);
    hide SourceOk, HistoryOk, TreeOk, MadeOk, ApplyAll, Published, IsOperationList, Known;
    var commit := Commit(q.id, plan.message, Published(plan, q.lfs, h[0].tree));
    var w1 := w.(runs := w.runs[run := Stopped]);
    assert Inv(numberOf, plan, w1);
    AppendKeeps(numberOf, plan, w1, commit);
    MadeKnown(numberOf, plan, [commit] + h, q.id);
    var phase := if q.acknowledged then Observed(q.id) else Stopped;
    AfterCommit(numberOf, plan, w1.(history := [commit] + h), run, phase, q.id);
    assert Work(numberOf, plan, w, run, q) == World([commit] + h, w1.runs[run := phase], [q.id]);
  }

  lemma AfterCommit(numberOf: string -> Option<nat>, plan: Plan, w: World, run: nat, p: Phase, id: string)
    requires Inv(numberOf, plan, w) && w.made == [] && PhaseOk(numberOf, plan, w.history, p)
    requires w.history != [] && w.history[0].id != plan.parent && MadeOk(numberOf, plan, w.history, id)
    ensures Inv(numberOf, plan, World(w.history, w.runs[run := p], [id]))
  {
    hide PhaseOk, MadeOk;
  }

  lemma MadeKnown(numberOf: string -> Option<nat>, plan: Plan, h: seq<Commit>, id: string)
    requires MadeOk(numberOf, plan, h, id)
    ensures SourceOk(numberOf, plan, h) && Known(h, id)
  {
  }

  lemma WorkKeeps(numberOf: string -> Option<nat>, plan: Plan, w: World, run: nat, q: Request)
    requires Inv(numberOf, plan, w) && run in w.runs && !Known(w.history, q.id)
    requires IsOperationList(plan, SourceTree(plan, w.history), q.ops)
    ensures Inv(numberOf, plan, Work(numberOf, plan, w, run, q))
  {
    assert PhaseOk(numberOf, plan, w.history, w.runs[run]);
    if w.runs[run] == AtParent && w.history != [] && w.history[0].id == plan.parent {
      CommitKeeps(numberOf, plan, w, run, q);
    } else {
      hide SourceOk, HistoryOk, TreeOk, MadeOk, ApplyAll, Known;
      if w.history != [] {
        HeadKnown(w.history);
      }
      MovesKeep(numberOf, plan, w, run, q);
    }
  }

  lemma HeadKnown(h: seq<Commit>)
    requires h != []
    ensures Known(h, h[0].id)
  {
    assert h[0] in h;
  }

  /** Every request but the commit only moves the run on, to a phase that its checks have earned. */
  lemma MovesKeep(numberOf: string -> Option<nat>, plan: Plan, w: World, run: nat, q: Request)
    requires Inv(numberOf, plan, w) && run in w.runs && PhaseOk(numberOf, plan, w.history, w.runs[run])
    requires w.runs[run] != AtParent || w.history == [] || w.history[0].id != plan.parent
    requires w.history != [] ==> Known(w.history, w.history[0].id)
    ensures Inv(numberOf, plan, Work(numberOf, plan, w, run, q))
  {
    hide SourceOk, HistoryOk, TreeOk, MadeOk, ApplyAll, Known;
    var w' := Work(numberOf, plan, w, run, q);
    assert w'.history == w.history && w'.made == w.made && run in w'.runs;
    assert PhaseOk(numberOf, plan, w.history, w'.runs[run]);
    assert w'.runs == w.runs[run := w'.runs[run]];
    hide PhaseOk, Work;
  }

  lemma NextKeeps(numberOf: string -> Option<nat>, plan: Plan, w: World, a: Action)
    requires Inv(numberOf, plan, w) && Enabled(plan, w, a)
    ensures Inv(numberOf, plan, Next(numberOf, plan, w, a))
  {
    match a
    case Advance(run, q) => WorkKeeps(numberOf, plan, w, run, q);
    case Append(c) =>
      if w.made != [] {
        ParentKnown(numberOf, plan, w.history);
      }
      AppendKeeps(numberOf, plan, w, c);
    case _ =>
  }

  lemma ParentKnown(numberOf: string -> Option<nat>, plan: Plan, h: seq<Commit>)
    requires SourceOk(numberOf, plan, h)
    ensures Known(h, plan.parent)
  {
  }

  // ---------------------------------------------------------------- every run

  ghost predicate Run(numberOf: string -> Option<nat>, plan: Plan, worlds: seq<World>, actions: seq<Action>)
  {
    && |worlds| == |actions| + 1
    && Init(worlds[0])
    && forall k :: 0 <= k < |actions| ==>
         Enabled(plan, worlds[k], actions[k]) && worlds[k + 1] == Next(numberOf, plan, worlds[k], actions[k])
  }

  lemma {:induction false} RunKeeps(numberOf: string -> Option<nat>, plan: Plan, worlds: seq<World>,
                                    actions: seq<Action>, k: nat)
    requires Run(numberOf, plan, worlds, actions) && k < |worlds|
    ensures Inv(numberOf, plan, worlds[k])
  {
    if k > 0 {
      RunKeeps(numberOf, plan, worlds, actions, k - 1);
      assert worlds[k - 1 + 1] == Next(numberOf, plan, worlds[k - 1], actions[k - 1]);
      NextKeeps(numberOf, plan, worlds[k - 1], actions[k - 1]);
    }
  }

  /** Over every interleaving, with or without receipts, all runs of one plan together make at most one commit, and
      it is the child of the fenced parent with the published tree. */
  lemma AtMostOneCommit(numberOf: string -> Option<nat>, plan: Plan, worlds: seq<World>, actions: seq<Action>, k: nat)
    requires Run(numberOf, plan, worlds, actions) && k < |worlds|
    ensures |worlds[k].made| <= 1
    ensures worlds[k].made != [] ==>
              var listed := From(worlds[k].history, worlds[k].made[0]);
              && |listed| >= 2 && listed[0].id == worlds[k].made[0] && listed[1].id == plan.parent
              && listed[0].title == plan.message
              && exists lfs :: listed[0].tree == Published(plan, lfs, SourceTree(plan, worlds[k].history))
  {
    RunKeeps(numberOf, plan, worlds, actions, k);
    var w := worlds[k];
    if w.made != [] {
      AcceptedIffPublished(plan, SourceTree(plan, w.history), From(w.history, w.made[0])[0].tree);
    }
  }

  /** Over every interleaving, all runs of one plan together make at most one commit, and every receipt names
      the same child of the fenced parent: the commit that was made, if one was. The child's number is one
      above the parent's and above every other number below it, so it occurs once. */
  lemma OneCommitOneReceipt(numberOf: string -> Option<nat>, plan: Plan, worlds: seq<World>, actions: seq<Action>,
                            k: nat, x: nat, y: nat)
    requires Run(numberOf, plan, worlds, actions) && k < |worlds|
    requires x in worlds[k].runs && worlds[k].runs[x].Receipt? && y in worlds[k].runs && worlds[k].runs[y].Receipt?
    ensures |worlds[k].made| <= 1
    ensures worlds[k].runs[x].head == worlds[k].runs[y].head
    ensures worlds[k].made != [] ==> worlds[k].runs[x].head == worlds[k].made[0]
    ensures var listed := From(worlds[k].history, worlds[k].runs[x].head);
            && |listed| >= 2 && listed[1].id == plan.parent && listed[0].title == plan.message
            && numberOf(listed[0].title) == Some(plan.sourceN + 1)
            && (forall c, n :: c in listed[1..] && numberOf(c.title) == Some(n) ==> n < plan.sourceN + 1)
            && exists lfs :: listed[0].tree == Published(plan, lfs, SourceTree(plan, worlds[k].history))
  {
    RunKeeps(numberOf, plan, worlds, actions, k);
    var w := worlds[k];
    var head, other := w.runs[x].head, w.runs[y].head;
    assert Confirmed(numberOf, plan, w.history, head) && Confirmed(numberOf, plan, w.history, other);
    OneChild(w.history, plan.parent, head, other);
    if w.made != [] {
      OneChild(w.history, plan.parent, head, w.made[0]);
    }
    var listed := From(w.history, head);
    AcceptedIffPublished(plan, SourceTree(plan, w.history), listed[0].tree);
    ListingNumbers(numberOf, listed, head, plan.sourceN + 1);
  }

  lemma ListingNumbers(numberOf: string -> Option<nat>, listed: seq<Commit>, head: string, n: nat)
    requires listed != []
    ensures SourceNumber(numberOf, Listing(listed), head) == Ok(n) <==>
              && listed[0].id == head && numberOf(listed[0].title) == Some(n)
              && forall c, k :: c in listed[1..] && numberOf(c.title) == Some(k) ==> k < n
  {
    var commits := Listing(listed);
    SourceNumberIsStrictMaximum(numberOf, commits, head, n);
    hide SourceNumber;
    assert forall i :: 0 <= i < |listed| - 1 ==> commits[1..][i] == Numbered(listed[1..][i].id, listed[1..][i].title);
    if forall c, k :: c in listed[1..] && numberOf(c.title) == Some(k) ==> k < n {
      forall d, k | d in commits[1..] && numberOf(d.title) == Some(k)
        ensures k < n
      {
        var i :| 0 <= i < |commits[1..]| && commits[1..][i] == d;
        assert listed[1..][i] in listed[1..];
      }
    }
    if forall d, k :: d in commits[1..] && numberOf(d.title) == Some(k) ==> k < n {
      forall c, k | c in listed[1..] && numberOf(c.title) == Some(k)
        ensures k < n
      {
        var i :| 0 <= i < |listed[1..]| && listed[1..][i] == c;
        assert commits[1..][i] in commits[1..];
      }
    }
  }

  /** A retry after a lost acknowledgement completes: while the made commit is the head, a new run passes every
      check and ends with a receipt for it, without another commit. */
  lemma RetryCompletes(numberOf: string -> Option<nat>, plan: Plan, w: World)
    requires Inv(numberOf, plan, w) && w.made != [] && w.history[0].id == w.made[0]
    requires numberOf(plan.message) == Some(plan.sourceN + 1)
    ensures SourceOk(numberOf, plan, w.history)
    ensures w.history[0].id != plan.parent
    ensures HistoryOk(numberOf, plan, w.history, w.made[0])
    ensures TreeOk(plan, w.history, w.made[0])
  {
    var h, id := w.history, w.made[0];
    assert From(h, id) == h;
    assert h[1..] == From(h, plan.parent) by {
      assert From(h, plan.parent) == From(h[1..], plan.parent);
    }
    ListingNumbers(numberOf, h[1..], plan.parent, plan.sourceN);
    ListingNumbers(numberOf, h, id, plan.sourceN + 1);
    forall c, k | c in h[1..] && numberOf(c.title) == Some(k)
      ensures k < plan.sourceN + 1
    {
      assert c == h[1..][0] || c in h[1..][1..];
    }
  }
}

/** What undisturbed runs of `publish_prepared` achieve. */
module BootstrapProgress {
  import opened Wrappers
  import opened BootstrapPublish
  import opened BootstrapRuns

  /** `n` requests of one run in a row. */
  function Advanced(numberOf: string -> Option<nat>, plan: Plan, w: World, run: nat, q: Request, n: nat): (w': World)
    requires run in w.runs
    ensures run in w'.runs
  {
    if n == 0 then w else Work(numberOf, plan, Advanced(numberOf, plan, w, run, q, n - 1), run, q)
  }

  lemma {:induction false} AdvancedMore(numberOf: string -> Option<nat>, plan: Plan, w: World, run: nat, q: Request,
                                        m: nat, n: nat)
    requires run in w.runs
    ensures Advanced(numberOf, plan, w, run, q, m + n)
            == Advanced(numberOf, plan, Advanced(numberOf, plan, w, run, q, m), run, q, n)
    decreases n
  {
    hide Work;
    if n > 0 {
      AdvancedMore(numberOf, plan, w, run, q, m, n - 1);
    }
  }

  lemma AdvancedOnce(numberOf: string -> Option<nat>, plan: Plan, w: World, run: nat, q: Request, n: nat)
    requires run in w.runs
    ensures Advanced(numberOf, plan, w, run, q, 0) == w
    ensures Advanced(numberOf, plan, w, run, q, n + 1)
            == Work(numberOf, plan, Advanced(numberOf, plan, w, run, q, n), run, q)
  {
    hide Work;
  }

  lemma MoveTwice(w: World, run: nat, p: Phase, p': Phase)
    ensures Move(Move(w, run, p), run, p') == Move(w, run, p')
  {
    assert w.runs[run := p][run := p'] == w.runs[run := p'];
  }

  /** A run that has the right child at the head confirms it with its last three requests. */
  lemma Confirms(numberOf: string -> Option<nat>, plan: Plan, w: World, run: nat, q: Request, head: string)
    requires run in w.runs && w.runs[run] == Observed(head) && w.history != [] && w.history[0].id == head
    requires HistoryOk(numberOf, plan, w.history, head) && TreeOk(plan, w.history, head)
    ensures Advanced(numberOf, plan, w, run, q, 3) == Move(w, run, Receipt(head))
  {
    hide HistoryOk, TreeOk, SourceOk, Advanced, ApplyAll;
    AdvancedOnce(numberOf, plan, w, run, q, 0);
    assert Advanced(numberOf, plan, w, run, q, 1) == Move(w, run, HistoryChecked(head));
    AdvancedOnce(numberOf, plan, w, run, q, 1);
    MoveTwice(w, run, HistoryChecked(head), TreeChecked(head));
    assert Advanced(numberOf, plan, w, run, q, 2) == Move(w, run, TreeChecked(head));
    AdvancedOnce(numberOf, plan, w, run, q, 2);
    MoveTwice(w, run, TreeChecked(head), Receipt(head));
  }

  /** The first two requests of a run check the source and read the head. */
  lemma ReadsHead(numberOf: string -> Option<nat>, plan: Plan, w: World, run: nat, q: Request)
    requires run in w.runs && w.runs[run] == Begun && SourceOk(numberOf, plan, w.history) && w.history != []
    ensures Advanced(numberOf, plan, w, run, q, 2)
            == Move(w, run, if w.history[0].id == plan.parent then AtParent else Observed(w.history[0].id))
  {
    hide HistoryOk, TreeOk, SourceOk, Advanced, ApplyAll;
    AdvancedOnce(numberOf, plan, w, run, q, 0);
    assert Advanced(numberOf, plan, w, run, q, 1) == Move(w, run, SourceChecked);
    AdvancedOnce(numberOf, plan, w, run, q, 1);
    MoveTwice(w, run, SourceChecked, if w.history[0].id == plan.parent then AtParent else Observed(w.history[0].id));
  }

  lemma PhaseMoves(numberOf: string -> Option<nat>, plan: Plan, w: World, run: nat, p: Phase)
    requires Inv(numberOf, plan, w) && PhaseOk(numberOf, plan, w.history, p)
    ensures Inv(numberOf, plan, Move(w, run, p))
  {
    hide PhaseOk, MadeOk;
  }

  lemma Commits(numberOf: string -> Option<nat>, plan: Plan, w: World, run: nat, q: Request)
    requires PlanOk(plan) && run in w.runs && w.runs[run] == AtParent && w.history != []
              && w.history[0].id == plan.parent
    requires IsOperationList(plan, w.history[0].tree, q.ops) && q.acknowledged
    ensures Work(numberOf, plan, w, run, q)
            == World([Commit(q.id, plan.message, Published(plan, q.lfs, w.history[0].tree))] + w.history,
                     w.runs[run := Observed(q.id)], w.made + [q.id])
  {
    AnyOrderPublishes(plan, q.lfs, w.history[0].tree, q.ops);
    hide ApplyAll, Published, IsOperationList;
  }

  function Committed(plan: Plan, w: World, run: nat, q: Request, p: Phase): World
    requires w.history != []
  {
    World([Commit(q.id, plan.message, Published(plan, q.lfs, w.history[0].tree))] + w.history, w.runs[run := p], [q.id])
  }

  lemma FirstRunCommits(numberOf: string -> Option<nat>, plan: Plan, w: World, run: nat, q: Request)
    requires Inv(numberOf, plan, w) && run in w.runs && w.runs[run] == Begun && SourceOk(numberOf, plan, w.history)
    requires w.history != [] && w.history[0].id == plan.parent && !Known(w.history, q.id) && q.acknowledged
    requires IsOperationList(plan, w.history[0].tree, q.ops)
    ensures Advanced(numberOf, plan, w, run, q, 3) == Committed(plan, w, run, q, Observed(q.id))
    ensures Inv(numberOf, plan, Committed(plan, w, run, q, Observed(q.id)))
  {
    assert w.made == [] && PlanOk(plan);
    hide HistoryOk, TreeOk, SourceOk, Advanced, ApplyAll, Published, IsOperationList, Known, Inv, Work, PlanOk;
    var w2 := Move(w, run, AtParent);
    ReadsHead(numberOf, plan, w, run, q);
    PhaseMoves(numberOf, plan, w, run, AtParent);
    AdvancedOnce(numberOf, plan, w, run, q, 2);
    Commits(numberOf, plan, w2, run, q);
    CommitKeeps(numberOf, plan, w2, run, q);
    assert w.runs[run := AtParent][run := Observed(q.id)] == w.runs[run := Observed(q.id)];
  }

  /** Undisturbed and acknowledged, a run that starts while the parent is the head publishes: it makes the one commit,
      with the published tree, and ends with its receipt. */
  lemma FirstRunPublishes(numberOf: string -> Option<nat>, plan: Plan, w: World, run: nat, q: Request)
    requires Inv(numberOf, plan, w) && run in w.runs && w.runs[run] == Begun && SourceOk(numberOf, plan, w.history)
    requires w.history != [] && w.history[0].id == plan.parent && !Known(w.history, q.id) && q.acknowledged
    requires IsOperationList(plan, w.history[0].tree, q.ops) && numberOf(plan.message) == Some(plan.sourceN + 1)
    ensures Advanced(numberOf, plan, w, run, q, 6) == Committed(plan, w, run, q, Receipt(q.id))
  {
    hide HistoryOk, TreeOk, SourceOk, Advanced, Published, IsOperationList, Known, Inv, Work;
    var w3 := Committed(plan, w, run, q, Observed(q.id));
    FirstRunCommits(numberOf, plan, w, run, q);
    RetryCompletes(numberOf, plan, w3);
    Confirms(numberOf, plan, w3, run, q, q.id);
    AdvancedMore(numberOf, plan, w, run, q, 3, 3);
    assert w.runs[run := Observed(q.id)][run := Receipt(q.id)] == w.runs[run := Receipt(q.id)];
  }

  /** After a lost acknowledgement, an undisturbed retry ends with the receipt of the commit already made and makes no
      other. */
  lemma RetryPublishes(numberOf: string -> Option<nat>, plan: Plan, w: World, run: nat, q: Request)
    requires Inv(numberOf, plan, w) && run in w.runs && w.runs[run] == Begun
    requires w.made != [] && w.history[0].id == w.made[0] && numberOf(plan.message) == Some(plan.sourceN + 1)
    ensures Advanced(numberOf, plan, w, run, q, 5) == w.(runs := w.runs[run := Receipt(w.made[0])])
  {
    RetryCompletes(numberOf, plan, w);
    hide HistoryOk, TreeOk, SourceOk, Advanced, Inv, Work;
    ReadsHead(numberOf, plan, w, run, q);
    Confirms(numberOf, plan, Move(w, run, Observed(w.made[0])), run, q, w.made[0]);
    AdvancedMore(numberOf, plan, w, run, q, 2, 3);
    MoveTwice(w, run, Observed(w.made[0]), Receipt(w.made[0]));
  }
}

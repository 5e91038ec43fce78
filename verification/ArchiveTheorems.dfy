/** The guarantees of the archive-then-squash protocol, for every run. */
module ArchiveTheorems {
  import opened Snapshots
  import opened ArchiveSquash
  import opened ArchiveMachine
  import opened ArchiveSafety
  import Orders

  // ---------------------------------------------------------------- the archive

  /** In every reachable world a manifest in the bucket is an inventory of its revision, and each object it
      lists is there with the listed size and hash. */
  lemma ManifestImpliesObjects(cfg: Config, worlds: seq<World>, actions: seq<Action>, k: nat, run: string, n: nat)
    requires Run(cfg, worlds, actions) && k < |worlds|
    requires Archived(run, n, MANIFEST) in worlds[k].bucket
    ensures var w := worlds[k];
            && w.bucket[Archived(run, n, MANIFEST)].Doc?
            && var m := w.bucket[Archived(run, n, MANIFEST)].manifest;
            && m.revision in w.trees
            && m.files == Inventory(cfg.sha, w.trees[m.revision])
            && forall i :: 0 <= i < |m.files| ==> ObjectOk(cfg, w.bucket, run, n, m.files[i])
  {
    RunKeeps(cfg, worlds, actions, k);
    assert Sound(cfg, worlds[k], run, n);
  }

  /** What can be read back below a prefix: the listed paths with the stored bytes. */
  ghost function Restored(bucket: Bucket, run: string, n: nat, files: seq<FileRecord>): Tree
  {
    map p | p in PathsOf(files) && Archived(run, n, p) in bucket && bucket[Archived(run, n, p)].Data?
      :: bucket[Archived(run, n, p)].bytes
  }

  /** A secured checkpoint can be restored byte for byte, and completely. */
  lemma SecuredRestores(cfg: Config, w: World, head: Revision, s: Selected, bound: nat)
    requires Secured(cfg, w, head, s, bound) && Sound(cfg, w, RunKey(cfg, head), s.n)
    ensures Restored(w.bucket, RunKey(cfg, head), s.n, w.bucket[ManifestKey(cfg, head, s.n)].manifest.files)
            == w.trees[s.revision]
  {
    var run, m := RunKey(cfg, head), w.bucket[ManifestKey(cfg, head, s.n)].manifest;
    var tree := w.trees[s.revision];
    InventoryComplete(cfg.sha, tree);
    InventoryPaths(cfg.sha, tree);
    hide RunKey, ObjectsOk, FileSizes, TreeSizes, Cached, Inventory, PathsOf;
    StoredRestores(w, run, s.n, s.revision, m.files);
  }

  lemma InventoryPaths(sha: Bytes -> string, tree: Tree)
    ensures PathsOf(Inventory(sha, tree)) == SnapshotPaths(tree)
  {
    var files, s := Inventory(sha, tree), OrderedPaths(tree);
    hide SnapshotPaths, OrderedPaths;
    forall p | p in SnapshotPaths(tree)
      ensures p in PathsOf(files)
    {
      assert p in s;
      var i :| 0 <= i < |s| && s[i] == p;
      assert files[i] in files && files[i].path == p;
    }
  }

  lemma StoredRestores(w: World, run: string, n: nat, revision: Revision, files: seq<FileRecord>)
    requires revision in w.trees && Stored(w, run, n, revision, files, |files|)
    requires PathsOf(files) == w.trees[revision].Keys
    ensures Restored(w.bucket, run, n, files) == w.trees[revision]
  {
    forall p | p in w.trees[revision]
      ensures Archived(run, n, p) in w.bucket && w.bucket[Archived(run, n, p)] == Data(w.trees[revision][p])
    {
      assert p in PathsOf(files);
      var r :| r in files && r.path == p;
      var i :| 0 <= i < |files| && files[i] == r;
    }
    hide PathsOf, Stored;
    assert Restored(w.bucket, run, n, files).Keys == w.trees[revision].Keys;
  }

  // ---------------------------------------------------------------- the squash

  /** The invocation of `job` looks at the head and finds the one it was given. */
  ghost predicate SeesHead(w: World, a: Action, job: Job)
  {
    && w.proc == RecheckingHead(job) && a.Advance?
    && w.repo.commits != [] && w.repo.commits[0].id == job.args.expectedHead
  }

  /** It looks at the refs and finds no tag and no branch but `main`. */
  ghost predicate SeesRefs(w: World, a: Action, job: Job)
  {
    w.proc == RecheckingRefs(job) && a.Advance? && w.repo.tags == [] && w.repo.branches == ["main"]
  }

  /** Where an invocation about to squash, or about to look at the refs again, has come from. */
  lemma {:induction false} Rechecked(cfg: Config, worlds: seq<World>, actions: seq<Action>, k: nat, job: Job)
    returns (i: nat, j: nat)
    requires Run(cfg, worlds, actions) && k < |worlds|
    requires worlds[k].proc == Squashing(job) || worlds[k].proc == RecheckingRefs(job)
    ensures i < k && SeesHead(worlds[i], actions[i], job)
    ensures forall l :: i <= l <= k ==> worlds[l].invocation == worlds[k].invocation
    ensures worlds[k].proc.Squashing? ==> i < j < k && SeesRefs(worlds[j], actions[j], job)
    decreases k
  {
    hide SeesHead, SeesRefs, Next, StoresOk;
    assert k > 0;
    var w, a := worlds[k - 1], actions[k - 1];
    assert Moves(cfg, w, a, worlds[k - 1 + 1]);
    if a.Others? {
      OthersLeaveProc(cfg, w, a);
      i, j := Rechecked(cfg, worlds, actions, k - 1, job);
    } else {
      ComesFrom(cfg, w, a, job);
      i, j := k - 1, k - 1;
      if worlds[k].proc.Squashing? {
        var unused;
        i, unused := Rechecked(cfg, worlds, actions, k - 1, job);
      }
    }
  }

  lemma OthersLeaveProc(cfg: Config, w: World, a: Action)
    requires StoresOk(w.repo, w.trees) && Enabled(w, a) && a.Others?
    ensures Next(cfg, w, a).proc == w.proc && Next(cfg, w, a).invocation == w.invocation
  {
  }

  lemma ComesFrom(cfg: Config, w: World, a: Action, job: Job)
    requires StoresOk(w.repo, w.trees) && Enabled(w, a) && !a.Others?
    ensures Next(cfg, w, a).proc == Squashing(job) ==> SeesRefs(w, a, job) && Next(cfg, w, a).invocation == w.invocation
    ensures Next(cfg, w, a).proc == Squashing(job) ==> w.proc == RecheckingRefs(job)
    ensures Next(cfg, w, a).proc == RecheckingRefs(job) ==>
              SeesHead(w, a, job) && Next(cfg, w, a).invocation == w.invocation
  {
    hide Listed, HasRead, HasReadBack, Verified, RootOk, ResumeAccepts, StoresOk, Upload;
    if a.Advance? && w.proc.Uploading? {
      UploadPhases(cfg, w, w.proc.job, w.proc.i, w.proc.files, w.proc.j);
    }
    if a.Advance? && w.proc.Listing? {
      ListedPhases(cfg, w, w.proc.job);
    }
    if a.Advance? && w.proc.Reading? {
      ReadPhases(cfg, w, w.proc.job, w.proc.i);
    }
    if a.Advance? && w.proc.ReadingBack? {
      ReadBackPhases(cfg, w, w.proc.job, w.proc.i);
    }
    if a.Advance? && w.proc.Verifying? {
      VerifiedPhases(cfg, w, w.proc.job, w.proc.i, w.proc.manifest);
    }
  }

  lemma UploadPhases(cfg: Config, w: World, job: Job, i: nat, files: seq<FileRecord>, j: nat)
    ensures var p := Upload(cfg, w, job, i, files, j).proc; p.Failed? || p.PuttingLedger? || p.Uploading?
  {
  }

  lemma ListedPhases(cfg: Config, w: World, job: Job)
    ensures Listed(cfg, w, job).Failed? || Listed(cfg, w, job).CheckingRefs?
  {
  }

  lemma ReadPhases(cfg: Config, w: World, job: Job, i: nat)
    requires StoresOk(w.repo, w.trees)
    ensures var p := HasRead(cfg, w, job, i);
            p.Failed? || p.RecheckingHead? || p.Finished? || p.Verifying? || p.Uploading?
  {
  }

  lemma ReadBackPhases(cfg: Config, w: World, job: Job, i: nat)
    ensures HasReadBack(cfg, w, job, i).Failed? || HasReadBack(cfg, w, job, i).Verifying?
  {
  }

  lemma VerifiedPhases(cfg: Config, w: World, job: Job, i: nat, m: Manifest)
    requires StoresOk(w.repo, w.trees)
    ensures Verified(cfg, w, job, i, m).Failed? || Verified(cfg, w, job, i, m).Reading?
  {
  }

  /** The tool rewrites history only after it has looked again, in this invocation, first at the head and then at the
      refs, and found both as they should be. Then every selected checkpoint has a verified manifest that an earlier
      invocation wrote, that names this very selection and that covers the checkpoint's complete source tree. */
  lemma SquashReliesOnArchive(cfg: Config, worlds: seq<World>, actions: seq<Action>, k: nat)
    returns (i: nat, j: nat)
    requires Run(cfg, worlds, actions) && k < |actions|
    requires actions[k].Advance? && worlds[k + 1].repo != worlds[k].repo
    ensures worlds[k].proc.Squashing? && i < j < k && worlds[i].invocation == worlds[k].invocation
    ensures SeesHead(worlds[i], actions[i], worlds[k].proc.job) && SeesRefs(worlds[j], actions[j], worlds[k].proc.job)
    ensures var w, job := worlds[k], worlds[k].proc.job;
            && Matches(job.args, job.selected)
            && forall c :: 0 <= c < |job.selected| ==>
                 Secured(cfg, w, job.args.expectedHead, job.selected[c], w.invocation)
  {
    RunKeeps(cfg, worlds, actions, k);
    var w := worlds[k];
    assert Moves(cfg, w, actions[k], worlds[k + 1]);
    OnlySquashRewrites(cfg, w, actions[k].root);
    JobSecures(cfg, w, w.proc.job);
    hide Inv, Secured, Next, Work;
    i, j := Rechecked(cfg, worlds, actions, k, w.proc.job);
  }

  lemma OnlySquashRewrites(cfg: Config, w: World, root: Revision)
    requires StoresOk(w.repo, w.trees)
    requires Work(cfg, w, root).repo != w.repo
    ensures w.proc.Squashing?
  {
    hide Listed, HasRead, HasReadBack, Verified, RootOk, ResumeAccepts;
  }

  /** An invocation that asks for a squash writes nothing to the bucket, whatever it is doing. */
  lemma SquashWritesNothing(cfg: Config, w: World, root: Revision)
    requires Inv(cfg, w)
    requires ((Reached(w.proc).Some? || w.proc.Listing?) && w.proc.job.args.squash) || w.proc.Resuming?
    ensures Work(cfg, w, root).bucket == w.bucket
  {
    hide Listed, HasRead, HasReadBack, Verified, RootOk, ResumeAccepts, JobOk, Sound, SquashOk;
  }

  /** Whatever happens after a squash, by the tool or by others, every checkpoint that the squash selected can
      be restored from the bucket exactly as its revision was. */
  lemma SquashedStaysRecoverable(cfg: Config, worlds: seq<World>, actions: seq<Action>, k: nat, q: Squash, i: nat)
    requires Run(cfg, worlds, actions) && k < |worlds|
    requires q in worlds[k].squashes && i < |q.job.selected|
    ensures var w, head, s := worlds[k], q.job.args.expectedHead, q.job.selected[i];
            && Secured(cfg, w, head, s, q.invocation)
            && Restored(w.bucket, RunKey(cfg, head), s.n, w.bucket[ManifestKey(cfg, head, s.n)].manifest.files)
               == w.trees[s.revision]
  {
    RunKeeps(cfg, worlds, actions, k);
    var w := worlds[k];
    var j :| 0 <= j < |w.squashes| && w.squashes[j] == q;
    assert SquashOk(cfg, w, w.squashes[j]);
    assert Sound(cfg, w, RunKey(cfg, q.job.args.expectedHead), q.job.selected[i].n);
    SecuredRestores(cfg, w, q.job.args.expectedHead, q.job.selected[i], q.invocation);
  }

  // ---------------------------------------------------------------- finishing and resuming

  /** The squash of `job` took effect with nobody else writing, and `root` is what it made. */
  ghost predicate SquashedBy(cfg: Config, w: World, job: Job, root: Revision)
  {
    && SquashOk(cfg, w, Squash(job, w.invocation + 1))
    && w.repo == Repo([Commit(root, SquashTitle(job.args.numbers[|job.args.numbers| - 1], job.args.expectedHead))],
                      ["main"], [], {root})
    && job.args.expectedHead in w.trees && root in w.trees && root != job.args.expectedHead
    && w.trees[root] == w.trees[job.args.expectedHead]
    && job.headSizes == TreeSizes(w.trees[root])
    && job.headManifest.Some? && job.headManifest.value.files == Inventory(cfg.sha, w.trees[root])
  }

  /** Where the tool can be afterwards, given that it is only run again with the same arguments. */
  ghost predicate AfterSquash(cfg: Config, w: World, job: Job, root: Revision)
  {
    && SquashedBy(cfg, w, job, root)
    && (w.proc.Idle? || w.proc.Failed? || w.proc.Finished? || w.proc.Resumed?
        || w.proc == Comparing(job) || w.proc == Resuming(job.args, root))
  }

  lemma SquashTakesEffect(cfg: Config, w: World, job: Job, root: Revision)
    requires Inv(cfg, w) && w.proc == Squashing(job) && root !in w.trees
    requires w.repo.commits != [] && w.repo.commits[0].id == job.args.expectedHead
    requires w.repo.branches == ["main"] && w.repo.tags == []
    ensures AfterSquash(cfg, Work(cfg, w, root), job, root)
    ensures Work(cfg, w, root).bucket == w.bucket
  {
    hide Work, Inv, SuperSquash, StoresOk, Matches, SquashTitle, TreeSizes, Inventory, SquashOk;
    SquashingMatches(cfg, w, job);
    SquashingStep(cfg, w, job, root);
    SquashKeeps(cfg, w, root);
    SquashedWorld(w, job, root);
    SquashedJob(cfg, SuperSquash(w, job, root), job);
  }

  lemma SquashingMatches(cfg: Config, w: World, job: Job)
    requires Inv(cfg, w) && w.proc == Squashing(job)
    ensures StoresOk(w.repo, w.trees) && Matches(job.args, job.selected)
  {
    hide StoresOk, Matches, Sound, SquashOk, Secured;
  }

  lemma SquashedWorld(w: World, job: Job, root: Revision)
    requires StoresOk(w.repo, w.trees) && root !in w.trees && Matches(job.args, job.selected)
    requires w.repo.commits != [] && w.repo.commits[0].id == job.args.expectedHead
    ensures var w' := SuperSquash(w, job, root);
            var title := SquashTitle(job.args.numbers[|job.args.numbers| - 1], job.args.expectedHead);
            && w'.proc == Comparing(job) && w'.bucket == w.bucket
            && w'.repo == w.repo.(commits := [Commit(root, title)], stored := {root})
            && root in w'.trees && root != job.args.expectedHead && w'.trees[root] == w'.trees[job.args.expectedHead]
  {
    assert w.repo.commits[0] in w.repo.commits;
    MatchesLast(job);
  }

  lemma MatchesLast(job: Job)
    requires Matches(job.args, job.selected)
    ensures job.selected != [] && |job.selected| == |job.args.numbers|
    ensures job.selected[|job.selected| - 1].n == job.args.numbers[|job.args.numbers| - 1]
  {
  }

  lemma SquashedJob(cfg: Config, w: World, job: Job)
    requires Inv(cfg, w) && w.proc == Comparing(job)
    ensures Matches(job.args, job.selected) && SquashOk(cfg, w, Squash(job, w.invocation + 1))
    ensures job.args.expectedHead in w.trees && job.headSizes == TreeSizes(w.trees[job.args.expectedHead])
    ensures job.headManifest.Some?
    ensures job.headManifest.value.files == Inventory(cfg.sha, w.trees[job.args.expectedHead])
  {
    JobSecures(cfg, w, job);
    LaterBound(cfg, w, job);
    var s := job.selected[|job.selected| - 1];
    assert Sound(cfg, w, RunKey(cfg, job.args.expectedHead), s.n);
    assert Secured(cfg, w, job.args.expectedHead, s, w.invocation);
  }

  lemma LaterBound(cfg: Config, w: World, job: Job)
    requires SquashOk(cfg, w, Squash(job, w.invocation))
    ensures SquashOk(cfg, w, Squash(job, w.invocation + 1))
  {
    forall k | 0 <= k < |job.selected|
      ensures Secured(cfg, w, job.args.expectedHead, job.selected[k], w.invocation + 1)
    {
      SecuredKept(cfg, w, w, job.args.expectedHead, job.selected[k], w.invocation, w.invocation + 1);
    }
  }

  lemma SquashedByKept(cfg: Config, w: World, w': World, job: Job, root: Revision)
    requires SquashedBy(cfg, w, job, root)
    requires w'.repo == w.repo && w'.trees == w.trees && w'.bucket == w.bucket && w.invocation <= w'.invocation
    ensures SquashedBy(cfg, w', job, root)
  {
    forall k | 0 <= k < |job.selected|
      ensures Secured(cfg, w', job.args.expectedHead, job.selected[k], w'.invocation + 1)
    {
      SecuredKept(cfg, w, w', job.args.expectedHead, job.selected[k], w.invocation + 1, w'.invocation + 1);
    }
    hide Secured, SquashTitle, Inventory, TreeSizes;
  }

  /** After a squash, crashing and running the tool again with the same arguments changes neither store. */
  lemma AfterSquashStays(cfg: Config, w: World, job: Job, root: Revision, a: Action)
    requires Inv(cfg, w) && AfterSquash(cfg, w, job, root) && Enabled(w, a)
    requires a == Crash || a == Start(job.args) || a.Advance?
    ensures var w' := Next(cfg, w, a);
            AfterSquash(cfg, w', job, root) && w'.repo == w.repo && w'.bucket == w.bucket && w'.trees == w.trees
  {
    var w' := Next(cfg, w, a);
    assert w.repo.commits != [] && w.repo.commits[0].id == root && root != job.args.expectedHead;
    assert job.args.squash;
    hide SquashedBy, RootOk, ResumeAccepts, Inv, StoresOk, Work;
    if a.Advance? {
      if w.proc == Comparing(job) {
        ComparingStep(cfg, w, job, a.root);
      } else {
        ResumingStep(cfg, w, job.args, root, a.root);
      }
    }
    SquashedByKept(cfg, w, w', job, root);
  }

  lemma ComparingStep(cfg: Config, w: World, job: Job, root: Revision)
    requires StoresOk(w.repo, w.trees) && w.proc == Comparing(job)
    ensures Work(cfg, w, root) == w.(proc := if RootOk(cfg, w, job) then Finished(job) else Failed)
  {
    hide RootOk, StoresOk;
  }

  lemma ResumingStep(cfg: Config, w: World, args: Args, finalHead: Revision, root: Revision)
    requires StoresOk(w.repo, w.trees) && w.proc == Resuming(args, finalHead)
    ensures Work(cfg, w, root) == w.(proc := if ResumeAccepts(cfg, w, args, finalHead) then Resumed(args) else Failed)
  {
    hide ResumeAccepts, StoresOk;
  }

  lemma SquashingStep(cfg: Config, w: World, job: Job, root: Revision)
    requires StoresOk(w.repo, w.trees) && w.proc == Squashing(job)
    ensures Work(cfg, w, root) == SuperSquash(w, job, root)
  {
    hide SuperSquash, StoresOk;
  }

  lemma RootDecides(cfg: Config, w: World, job: Job, root: Revision)
    requires StoresOk(w.repo, w.trees) && SquashedBy(cfg, w, job, root)
    ensures RootOk(cfg, w, job) <==> OrdersAgree(w.trees[root])
  {
    StringSortKeepsInventory(cfg.sha, w.trees[root]);
    hide SquashOk, Inventory, SquashTitle, OrdersAgree, StoresOk, TreeSizes;
  }

  /** The final comparison of the squash invocation itself succeeds exactly when no two files of the head are
      ordered differently as paths and as strings. */
  lemma FinishOutcome(cfg: Config, w: World, job: Job, root: Revision, next: Revision)
    requires Inv(cfg, w) && AfterSquash(cfg, w, job, root) && w.proc == Comparing(job)
    ensures Work(cfg, w, next).proc == if OrdersAgree(w.trees[root]) then Finished(job) else Failed
  {
    RootDecides(cfg, w, job, root);
    hide *;
    ComparingStep(cfg, w, job, next);
  }

  /** Run again with the same arguments after a crash, the tool takes the resume path and writes nothing. It
      succeeds exactly when no two files of the head are ordered differently as paths and as strings; every
      other check of the resume path passes. */
  lemma ResumeOutcome(cfg: Config, w: World, job: Job, root: Revision, next: Revision)
    requires Inv(cfg, w) && AfterSquash(cfg, w, job, root) && !Live(w.proc)
    ensures var started := Next(cfg, w, Start(job.args));
            && started.proc == Resuming(job.args, root)
            && var ended := Work(cfg, started, next);
            && ended.bucket == w.bucket && ended.repo == w.repo
            && ended.proc == if OrdersAgree(w.trees[root]) then Resumed(job.args) else Failed
  {
    var started := Next(cfg, w, Start(job.args));
    assert w.repo.commits != [] && w.repo.commits[0].id == root && root != job.args.expectedHead;
    assert job.args.squash && ValidArgs(job.args);
    StartKeeps(cfg, w, job.args);
    hide Inv, SquashedBy, ResumeAccepts, OrdersAgree, StoresOk, Work;
    SquashedByKept(cfg, w, started, job, root);
    ResumeDecides(cfg, started, job, root);
    ResumingStep(cfg, started, job.args, root, next);
  }

  lemma ResumeDecides(cfg: Config, w: World, job: Job, root: Revision)
    requires Inv(cfg, w) && AfterSquash(cfg, w, job, root)
    ensures ResumeAccepts(cfg, w, job.args, root) <==> OrdersAgree(w.trees[root])
  {
    var head, numbers := job.args.expectedHead, job.args.numbers;
    var last := job.selected[|job.selected| - 1];
    assert Secured(cfg, w, head, last, w.invocation + 1);
    assert Sound(cfg, w, RunKey(cfg, head), last.n);
    forall i | 0 <= i < |numbers|
      ensures MilestoneOk(cfg, w.bucket, head, numbers[i])
    {
      assert Secured(cfg, w, head, job.selected[i], w.invocation + 1);
    }
    StringSortKeepsInventory(cfg.sha, w.trees[root]);
    hide Inv, SquashTitle, RunKey, ObjectsOk, Inventory, OrdersAgree, MilestoneOk, TreeSizes, FileSizes;
  }

  /** The same over whole runs: once a squash took effect with the head it had verified, any number of crashes
      and re-runs with the same arguments leaves the stores as they are and the tool able to resume. */
  lemma {:induction false} SquashedRunsResume(
      cfg: Config, worlds: seq<World>, actions: seq<Action>, k: nat, j: nat, job: Job, root: Revision)
    requires Run(cfg, worlds, actions) && k < j <= |actions|
    requires worlds[k].proc == Squashing(job) && actions[k] == Advance(root)
    requires worlds[k].repo.commits != [] && worlds[k].repo.commits[0].id == job.args.expectedHead
    requires worlds[k].repo.branches == ["main"] && worlds[k].repo.tags == []
    requires forall i :: k < i < j ==> actions[i] == Crash || actions[i] == Start(job.args) || actions[i].Advance?
    ensures Inv(cfg, worlds[j]) && AfterSquash(cfg, worlds[j], job, root) && worlds[j].bucket == worlds[k].bucket
    decreases j
  {
    hide Inv, AfterSquash, Work, StoresOk, Init, Started;
    RunKeeps(cfg, worlds, actions, j);
    RunKeeps(cfg, worlds, actions, j - 1);
    assert Moves(cfg, worlds[j - 1], actions[j - 1], worlds[j - 1 + 1]);
    if j - 1 == k {
      SquashTakesEffect(cfg, worlds[k], job, root);
    } else {
      SquashedRunsResume(cfg, worlds, actions, k, j - 1, job, root);
      AfterSquashStays(cfg, worlds[j - 1], job, root, actions[j - 1]);
    }
  }

  // ---------------------------------------------------------------- what success means

  /** No file of the two trees collides with the file of the same name in the other. */
  ghost predicate CollisionFree(sha: Bytes -> string, x: Tree, y: Tree)
  {
    forall p :: p in x && p in y && sha(x[p]) == sha(y[p]) ==> x[p] == y[p]
  }

  lemma SameInventorySameBytes(sha: Bytes -> string, x: Tree, y: Tree, p: Path)
    requires CollisionFree(sha, x, y) && Inventory(sha, x) == Orders.Sort(Inventory(sha, y), RecordLe)
    requires p in SnapshotPaths(x)
    ensures p in y && x[p] == y[p]
  {
    var files, paths := Inventory(sha, x), OrderedPaths(x);
    var i :| 0 <= i < |paths| && paths[i] == p;
    Orders.SortPermutes(Inventory(sha, y), RecordLe);
    assert files[i] in Inventory(sha, y);
    var j :| 0 <= j < |Inventory(sha, y)| && Inventory(sha, y)[j] == files[i];
    InventoryPath(sha, y, j);
    assert files[i] == Record(sha, p, x[p]) && files[i] == Record(sha, p, y[p]);
  }

  /** Other writers may race the squash, but an invocation that reports success has left the repository with
      exactly the archived content of the head it was given. */
  lemma FinishedMeansPreserved(cfg: Config, w: World, job: Job)
    requires Inv(cfg, w) && w.proc == Comparing(job) && RootOk(cfg, w, job)
    requires CollisionFree(cfg.sha, w.trees[w.repo.commits[0].id], w.trees[job.args.expectedHead])
    ensures w.trees[w.repo.commits[0].id] == w.trees[job.args.expectedHead]
  {
    SquashedJob(cfg, w, job);
    var root, head := w.trees[w.repo.commits[0].id], w.trees[job.args.expectedHead];
    HeadUncached(cfg, w, job);
    assert TreeSizes(root) == TreeSizes(head);
    assert root.Keys == TreeSizes(root).Keys == TreeSizes(head).Keys == head.Keys;
    forall p | p in root
      ensures root[p] == head[p]
    {
      assert p in SnapshotPaths(root);
      SameInventorySameBytes(cfg.sha, root, head, p);
    }
  }

  lemma HeadUncached(cfg: Config, w: World, job: Job)
    requires Inv(cfg, w) && w.proc == Comparing(job)
    ensures job.args.expectedHead in w.trees && forall p :: p in w.trees[job.args.expectedHead] ==> !Cached(p)
  {
    var s := job.selected[|job.selected| - 1];
    assert Secured(cfg, w, job.args.expectedHead, s, w.invocation);
    assert Sound(cfg, w, RunKey(cfg, job.args.expectedHead), s.n);
    InventoryComplete(cfg.sha, w.trees[s.revision]);
  }
}

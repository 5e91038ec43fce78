/** What undisturbed invocations of `scripts/archive_finished_hf_run.py` achieve. */
module ArchiveProgress {
  import opened Wrappers
  import opened Snapshots
  import opened ArchiveSquash
  import opened ArchiveMachine
  import opened ArchiveSafety
  import opened ArchiveTheorems

  /** A checkpoint can be archived: it can be downloaded, is not empty, has nothing below a `.cache` directory, and
      its records have the form that verification demands. */
  ghost predicate Archivable(cfg: Config, repo: Repo, trees: map<Revision, Tree>, s: Selected)
  {
    && s.revision in repo.stored && s.revision in trees && trees[s.revision] != map[]
    && forall p :: p in trees[s.revision] ==> !Cached(p) && RecordOk(Record(cfg.sha, p, trees[s.revision][p]))
  }

  /** The repository is as the arguments say, and every selected checkpoint can be archived. */
  ghost predicate Ready(cfg: Config, repo: Repo, trees: map<Revision, Tree>, args: Args, selected: seq<Selected>)
  {
    && ValidArgs(args)
    && repo.commits != [] && repo.commits[0].id == args.expectedHead
    && repo.tags == [] && repo.branches == ["main"]
    && Selection(cfg, repo.commits, args.numbers) == Ok(selected)
    && selected != [] && selected[|selected| - 1].revision == args.expectedHead
    && forall k :: 0 <= k < |selected| ==> Archivable(cfg, repo, trees, selected[k])
  }

  /** The checkpoint's manifest is in the bucket and is about this checkpoint. */
  ghost predicate Present(cfg: Config, bucket: Bucket, args: Args, s: Selected)
  {
    var key := ManifestKey(cfg, args.expectedHead, s.n);
    key in bucket && bucket[key].Doc? && Identity(cfg, bucket[key].manifest, args.expectedHead, s)
  }

  /** It is, or this invocation may write it. */
  ghost predicate Waits(cfg: Config, bucket: Bucket, args: Args, s: Selected)
  {
    Present(cfg, bucket, args, s) || (ManifestKey(cfg, args.expectedHead, s.n) !in bucket && !args.squash)
  }

  ghost predicate WaitFrom(cfg: Config, bucket: Bucket, args: Args, selected: seq<Selected>, i: nat)
  {
    forall k :: i <= k < |selected| ==> Waits(cfg, bucket, args, selected[k])
  }

  ghost predicate IsJob(job: Job, args: Args, selected: seq<Selected>) { job.args == args && job.selected == selected }

  /** The invocation is on its way and nothing ahead of it can fail. */
  ghost predicate OnTheWay(cfg: Config, w: World, args: Args, selected: seq<Selected>)
  {
    match w.proc
    case Listing(job) => job.args == args && WaitFrom(cfg, w.bucket, args, selected, 0)
    case CheckingRefs(job) => IsJob(job, args, selected) && WaitFrom(cfg, w.bucket, args, selected, 0)
    case Reading(job, i) => IsJob(job, args, selected) && i <= |selected| && WaitFrom(cfg, w.bucket, args, selected, i)
    case Uploading(job, i, _, _) =>
      IsJob(job, args, selected) && i < |selected| && WaitFrom(cfg, w.bucket, args, selected, i + 1)
    case PuttingLedger(job, i, _) =>
      IsJob(job, args, selected) && i < |selected| && Present(cfg, w.bucket, args, selected[i])
      && WaitFrom(cfg, w.bucket, args, selected, i + 1)
    case ReadingBack(job, i) =>
      IsJob(job, args, selected) && i < |selected| && Present(cfg, w.bucket, args, selected[i])
      && WaitFrom(cfg, w.bucket, args, selected, i + 1)
    case Verifying(job, i, _) =>
      IsJob(job, args, selected) && i < |selected| && WaitFrom(cfg, w.bucket, args, selected, i + 1)
    case RecheckingHead(job) => IsJob(job, args, selected)
    case RecheckingRefs(job) => IsJob(job, args, selected)
    case Squashing(job) => IsJob(job, args, selected)
    case Finished(job) => IsJob(job, args, selected) && !args.squash
    case _ => false
  }

  ghost predicate Going(cfg: Config, w: World, args: Args, selected: seq<Selected>)
  {
    Inv(cfg, w) && StoresOk(w.repo, w.trees) && Ready(cfg, w.repo, w.trees, args, selected)
        && OnTheWay(cfg, w, args, selected)
  }

  predicate Arrived(p: Proc) { p.Squashing? || p.Finished? }

  // ---------------------------------------------------------------- how far an invocation has come

  function CheckpointsLeft(p: Proc, n: nat): nat
  {
    match p
    case Listing(_) => n + 2
    case CheckingRefs(_) => n + 1
    case Reading(_, i) => if i <= n then n - i else 0
    case Uploading(_, i, _, _) => if i <= n then n - i else 0
    case PuttingLedger(_, i, _) => if i <= n then n - i else 0
    case ReadingBack(_, i) => if i <= n then n - i else 0
    case Verifying(_, i, _) => if i <= n then n - i else 0
    case _ => 0
  }

  function Phase(p: Proc): nat
  {
    match p
    case Reading(_, _) => 5
    case Uploading(_, _, _, _) => 4
    case PuttingLedger(_, _, _) => 3
    case ReadingBack(_, _) => 2
    case Verifying(_, _, _) => 1
    case RecheckingHead(_) => 3
    case RecheckingRefs(_) => 2
    case _ => 0
  }

  function FilesLeft(p: Proc): nat { if p.Uploading? && p.j <= |p.files| then |p.files| - p.j else 0 }

  ghost predicate Closer(p: Proc, q: Proc, n: nat)
  {
    var a, b := CheckpointsLeft(p, n), CheckpointsLeft(q, n);
    b < a || (b == a && (Phase(q) < Phase(p) || (Phase(q) == Phase(p) && FilesLeft(q) < FilesLeft(p))))
  }

  // ---------------------------------------------------------------- a verified manifest passes verification

  lemma HasPath(tree: Tree)
    ensures tree == map[] || exists p :: p in tree
  {
  }

  lemma InventoryNonEmpty(sha: Bytes -> string, tree: Tree)
    requires tree != map[] && forall p :: p in tree ==> !Cached(p)
    ensures Inventory(sha, tree) != []
  {
    var s := OrderedPaths(tree);
    HasPath(tree);
    var p :| p in tree;
    assert p in SnapshotPaths(tree);
    assert p in s;
  }

  lemma SoundManifestVerifies(cfg: Config, w: World, run: string, s: Selected, m: Manifest)
    requires Sound(cfg, w, run, s.n) && Archivable(cfg, w.repo, w.trees, s) && m.revision == s.revision
    requires Archived(run, s.n, MANIFEST) in w.bucket && w.bucket[Archived(run, s.n, MANIFEST)] == Doc(m)
    ensures ObjectsOk(cfg, w.bucket, run, s.n, m) && TreeSizes(w.trees[s.revision]) == FileSizes(m.files)
  {
    var tree, paths := w.trees[s.revision], OrderedPaths(w.trees[s.revision]);
    InventoryComplete(cfg.sha, tree);
    InventoryNonEmpty(cfg.sha, tree);
    hide RecordOk, FileSizes, TreeSizes, Cached;
    assert |m.files| == |paths|;
    forall i | 0 <= i < |m.files|
      ensures RecordOk(m.files[i]) && ObjectOk(cfg, w.bucket, run, s.n, m.files[i]) && m.files[i].path == paths[i]
    {
      assert paths[i] in paths && paths[i] in tree;
      assert m.files[i] == Record(cfg.sha, paths[i], tree[paths[i]]);
    }
  }

  // ---------------------------------------------------------------- every step goes on

  /** A step of an undisturbed invocation that only moves on: it stays on its way and comes closer to its end. */
  ghost predicate Steps(cfg: Config, w: World, args: Args, selected: seq<Selected>, root: Revision)
    requires StoresOk(w.repo, w.trees)
  {
    var w' := Work(cfg, w, root);
    && Going(cfg, w', args, selected) && w'.repo == w.repo && w'.trees == w.trees && w'.invocation == w.invocation
    && Closer(w.proc, w'.proc, |selected|)
  }

  lemma MovesOn(cfg: Config, w: World, args: Args, selected: seq<Selected>, root: Revision, p: Proc)
    requires Going(cfg, w, args, selected) && root !in w.trees && Work(cfg, w, root) == w.(proc := p)
    requires OnTheWay(cfg, w.(proc := p), args, selected) && Closer(w.proc, p, |selected|)
    ensures Steps(cfg, w, args, selected, root)
  {
    hide Inv, Work, OnTheWay, Closer, Ready, StoresOk;
    WorkKeeps(cfg, w, root);
  }

  lemma ListingStep(cfg: Config, w: World, root: Revision, job: Job, selected: seq<Selected>)
    requires StoresOk(w.repo, w.trees) && w.proc == Listing(job)
    requires Selection(cfg, w.repo.commits, job.args.numbers) == Ok(selected)
    requires selected != [] && selected[|selected| - 1].revision == job.args.expectedHead
    ensures Work(cfg, w, root) == w.(proc := CheckingRefs(job.(selected := selected)))
  {
    hide StoresOk, Selection;
  }

  lemma ListingGoesOn(cfg: Config, w: World, args: Args, selected: seq<Selected>, root: Revision, job: Job)
    requires Going(cfg, w, args, selected) && root !in w.trees && w.proc == Listing(job)
    ensures Steps(cfg, w, args, selected, root)
  {
    hide Inv, Selection, Archivable, WaitFrom, Work, StoresOk;
    ListingStep(cfg, w, root, job, selected);
    MovesOn(cfg, w, args, selected, root, CheckingRefs(job.(selected := selected)));
  }

  lemma ChecksGoOn(cfg: Config, w: World, args: Args, selected: seq<Selected>, root: Revision, job: Job, p: Proc)
    requires Going(cfg, w, args, selected) && root !in w.trees
    requires (w.proc == CheckingRefs(job) && p == Reading(job, 0))
             || (w.proc == RecheckingHead(job) && p == RecheckingRefs(job))
             || (w.proc == RecheckingRefs(job) && p == Squashing(job))
    ensures Steps(cfg, w, args, selected, root)
  {
    hide Inv, Selection, Archivable, WaitFrom, StoresOk;
    assert Work(cfg, w, root) == w.(proc := p);
    hide Work;
    MovesOn(cfg, w, args, selected, root, p);
  }

  lemma ReadingStep(cfg: Config, w: World, root: Revision, job: Job, i: nat)
    requires StoresOk(w.repo, w.trees) && w.proc == Reading(job, i)
    ensures Work(cfg, w, root) == w.(proc := HasRead(cfg, w, job, i))
  {
    hide HasRead, StoresOk;
  }

  lemma EndHasManifest(cfg: Config, w: World, job: Job)
    requires Inv(cfg, w) && w.proc == Reading(job, |job.selected|)
    ensures job.headManifest.Some?
  {
    hide Sound, SquashOk, StoresOk, Secured, ArgsOk, Matches, TreeSizes;
  }

  lemma EndStep(cfg: Config, w: World, job: Job)
    requires StoresOk(w.repo, w.trees) && job.headManifest.Some?
    ensures HasRead(cfg, w, job, |job.selected|) == if job.args.squash then RecheckingHead(job) else Finished(job)
  {
    hide StoresOk;
  }

  lemma EndGoesOn(cfg: Config, w: World, args: Args, selected: seq<Selected>, root: Revision, job: Job)
    requires Going(cfg, w, args, selected) && root !in w.trees && w.proc == Reading(job, |selected|)
    ensures Steps(cfg, w, args, selected, root)
  {
    hide Inv, Selection, Archivable, WaitFrom, Work, StoresOk, HasRead;
    EndHasManifest(cfg, w, job);
    ReadingStep(cfg, w, root, job, |selected|);
    EndStep(cfg, w, job);
    MovesOn(cfg, w, args, selected, root, if args.squash then RecheckingHead(job) else Finished(job));
  }

  lemma ReadingGoesOn(cfg: Config, w: World, args: Args, selected: seq<Selected>, root: Revision, job: Job, i: nat)
    requires Going(cfg, w, args, selected) && root !in w.trees && w.proc == Reading(job, i) && i < |selected|
    ensures Steps(cfg, w, args, selected, root)
  {
    hide Inv, Selection, Work, StoresOk, Inventory, Identity, RecordOk, Cached, RunKey;
    ReadingStep(cfg, w, root, job, i);
    assert Waits(cfg, w.bucket, args, selected[i]) && Archivable(cfg, w.repo, w.trees, selected[i]);
    var files, key := Inventory(cfg.sha, w.trees[selected[i].revision]), KeyAt(cfg, job, i);
    InventoryNonEmpty(cfg.sha, w.trees[selected[i].revision]);
    var p := if key in w.bucket then Verifying(job, i, w.bucket[key].manifest) else Uploading(job, i, files, 0);
    assert HasRead(cfg, w, job, i) == p;
    hide HasRead, Archivable, Waits;
    MovesOn(cfg, w, args, selected, root, p);
  }

  lemma ReadingBackGoesOn(cfg: Config, w: World, args: Args, selected: seq<Selected>, root: Revision, job: Job, i: nat)
    requires Going(cfg, w, args, selected) && root !in w.trees && w.proc == ReadingBack(job, i)
    ensures Steps(cfg, w, args, selected, root)
  {
    hide Inv, Selection, Archivable, WaitFrom, Identity, StoresOk, RunKey;
    var p := Verifying(job, i, w.bucket[KeyAt(cfg, job, i)].manifest);
    assert Work(cfg, w, root) == w.(proc := p);
    hide Work;
    MovesOn(cfg, w, args, selected, root, p);
  }

  lemma VerifyingStep(cfg: Config, w: World, root: Revision, job: Job, i: nat, m: Manifest)
    requires StoresOk(w.repo, w.trees) && w.proc == Verifying(job, i, m)
    ensures Work(cfg, w, root) == w.(proc := Verified(cfg, w, job, i, m))
  {
    hide Verified, StoresOk;
  }

  lemma VerifyingFound(cfg: Config, w: World, job: Job, i: nat, m: Manifest)
    requires Inv(cfg, w) && w.proc == Verifying(job, i, m)
    ensures i < |job.selected| && Found(cfg, w, job, i, m) && Sound(cfg, w, PrefixOf(cfg, job), job.selected[i].n)
  {
    hide Sound, JobOk, SquashOk, StoresOk;
  }

  lemma VerifiedIs(cfg: Config, w: World, job: Job, i: nat, m: Manifest)
    requires StoresOk(w.repo, w.trees) && i < |job.selected| && Archivable(cfg, w.repo, w.trees, job.selected[i])
    requires Found(cfg, w, job, i, m) && Sound(cfg, w, PrefixOf(cfg, job), job.selected[i].n)
    ensures Verified(cfg, w, job, i, m)
            == Reading(if job.selected[i].revision == job.args.expectedHead then job.(headManifest := Some(m))
                else job, i + 1)
  {
    hide StoresOk, Sound, ObjectsOk, FileSizes, TreeSizes, RunKey, RecordOk, Cached;
    SoundManifestVerifies(cfg, w, PrefixOf(cfg, job), job.selected[i], m);
  }

  lemma VerifyingGoesOn(cfg: Config, w: World, args: Args, selected: seq<Selected>, root: Revision,
                        job: Job, i: nat, m: Manifest)
    requires Going(cfg, w, args, selected) && root !in w.trees && w.proc == Verifying(job, i, m)
    ensures Steps(cfg, w, args, selected, root)
  {
    hide Inv, Selection, WaitFrom, Sound, StoresOk, Work, Found, Verified, Archivable;
    VerifyingStep(cfg, w, root, job, i, m);
    VerifyingFound(cfg, w, job, i, m);
    assert Archivable(cfg, w.repo, w.trees, selected[i]);
    VerifiedIs(cfg, w, job, i, m);
    MovesOn(cfg, w, args, selected, root,
            Reading(if selected[i].revision == args.expectedHead then job.(headManifest := Some(m)) else job, i + 1));
  }

  // ---------------------------------------------------------------- steps that write

  /** The manifests of the checkpoints from `i` on are where they were. */
  ghost predicate SameManifests(cfg: Config, bucket: Bucket, bucket': Bucket, args: Args, selected: seq<Selected>,
      i: nat)
  {
    forall k :: i <= k < |selected| ==>
      var key := ManifestKey(cfg, args.expectedHead, selected[k].n);
      (key in bucket' <==> key in bucket) && (key in bucket ==> bucket'[key] == bucket[key])
  }

  lemma WaitKept(cfg: Config, bucket: Bucket, bucket': Bucket, args: Args, selected: seq<Selected>, i: nat)
    requires WaitFrom(cfg, bucket, args, selected, i) && SameManifests(cfg, bucket, bucket', args, selected, i)
    ensures WaitFrom(cfg, bucket', args, selected, i)
  {
    hide RunKey, Identity;
    forall k | i <= k < |selected|
      ensures Waits(cfg, bucket', args, selected[k])
    {
      assert Waits(cfg, bucket, args, selected[k]);
    }
  }

  /** A step that writes one object that is no manifest of a later checkpoint. */
  lemma WritesOn(cfg: Config, w: World, args: Args, selected: seq<Selected>, root: Revision, key: Key, o: Object,
      p: Proc)
    requires Going(cfg, w, args, selected) && root !in w.trees
    requires Work(cfg, w, root) == w.(bucket := w.bucket[key := o], proc := p)
    requires OnTheWay(cfg, w.(bucket := w.bucket[key := o], proc := p), args, selected) && Closer(w.proc, p, |selected|)
    ensures Steps(cfg, w, args, selected, root)
  {
    hide Inv, Work, OnTheWay, Closer, Ready, StoresOk;
    WorkKeeps(cfg, w, root);
  }

  lemma UploadingFacts(cfg: Config, w: World, job: Job, i: nat, files: seq<FileRecord>, j: nat)
    requires Inv(cfg, w) && w.proc == Uploading(job, i, files, j)
    ensures i < |job.selected| && j <= |files| && job.selected[i].revision in w.trees
    ensures j < |files| ==> files[j].path in w.trees[job.selected[i].revision] && files[j].path != MANIFEST
  {
    assert UploadOk(cfg, w, job, i, files, j);
    if j < |files| {
      InventoryPath(cfg.sha, w.trees[job.selected[i].revision], j);
    }
    hide Sound, JobOk, SquashOk, Inventory;
  }

  lemma UploadStep(cfg: Config, w: World, root: Revision, job: Job, i: nat, files: seq<FileRecord>, j: nat)
    requires StoresOk(w.repo, w.trees) && w.proc == Uploading(job, i, files, j)
    ensures Work(cfg, w, root) == Upload(cfg, w, job, i, files, j)
  {
    hide Upload, StoresOk;
  }

  lemma UploadGoesOn(cfg: Config, w: World, args: Args, selected: seq<Selected>, root: Revision,
                     job: Job, i: nat, files: seq<FileRecord>, j: nat)
    requires Going(cfg, w, args, selected) && root !in w.trees && w.proc == Uploading(job, i, files, j) && j < |files|
    ensures Steps(cfg, w, args, selected, root)
  {
    hide Inv, Selection, Archivable, WaitFrom, StoresOk, Work, RunKey;
    UploadingFacts(cfg, w, job, i, files, j);
    UploadStep(cfg, w, root, job, i, files, j);
    var key := Archived(PrefixOf(cfg, job), selected[i].n, files[j].path);
    var o := Data(w.trees[selected[i].revision][files[j].path]);
    assert SameManifests(cfg, w.bucket, w.bucket[key := o], args, selected, i + 1);
    hide SameManifests;
    WaitKept(cfg, w.bucket, w.bucket[key := o], args, selected, i + 1);
    WritesOn(cfg, w, args, selected, root, key, o, Uploading(job, i, files, j + 1));
  }

  lemma SelectedNumbers(cfg: Config, repo: Repo, trees: map<Revision, Tree>, args: Args, selected: seq<Selected>)
    requires Ready(cfg, repo, trees, args, selected)
    ensures |selected| == |args.numbers|
    ensures forall k :: 0 <= k < |selected| ==> selected[k].n == args.numbers[k]
    ensures forall i, k :: 0 <= i < k < |selected| ==> selected[i].n != selected[k].n
  {
    hide Archivable;
  }

  lemma ManifestGoesOn(cfg: Config, w: World, args: Args, selected: seq<Selected>, root: Revision,
                       job: Job, i: nat, files: seq<FileRecord>)
    requires Going(cfg, w, args, selected) && root !in w.trees && w.proc == Uploading(job, i, files, |files|)
    ensures Steps(cfg, w, args, selected, root)
  {
    hide Inv, Selection, Archivable, WaitFrom, StoresOk, Work, RunKey;
    UploadingFacts(cfg, w, job, i, files, |files|);
    UploadStep(cfg, w, root, job, i, files, |files|);
    var key, o := KeyAt(cfg, job, i), Doc(NewManifest(cfg, w, job, i, files));
    SelectedNumbers(cfg, w.repo, w.trees, args, selected);
    assert SameManifests(cfg, w.bucket, w.bucket[key := o], args, selected, i + 1);
    hide SameManifests;
    WaitKept(cfg, w.bucket, w.bucket[key := o], args, selected, i + 1);
    assert Present(cfg, w.bucket[key := o], args, selected[i]);
    hide Present;
    WritesOn(cfg, w, args, selected, root, key, o, PuttingLedger(job, i, files));
  }

  lemma LedgerGoesOn(cfg: Config, w: World, args: Args, selected: seq<Selected>, root: Revision,
                     job: Job, i: nat, files: seq<FileRecord>)
    requires Going(cfg, w, args, selected) && root !in w.trees && w.proc == PuttingLedger(job, i, files)
    ensures Steps(cfg, w, args, selected, root)
  {
    hide Inv, Selection, Archivable, WaitFrom, StoresOk, RunKey;
    var key, o := Ledger(PrefixOf(cfg, job), selected[i].n), Doc(NewManifest(cfg, w, job, i, files));
    assert Work(cfg, w, root) == w.(bucket := w.bucket[key := o], proc := ReadingBack(job, i));
    hide Work;
    assert SameManifests(cfg, w.bucket, w.bucket[key := o], args, selected, i + 1);
    hide SameManifests;
    WaitKept(cfg, w.bucket, w.bucket[key := o], args, selected, i + 1);
    assert Present(cfg, w.bucket[key := o], args, selected[i]);
    hide Present;
    WritesOn(cfg, w, args, selected, root, key, o, ReadingBack(job, i));
  }

  // ---------------------------------------------------------------- whole invocations

  lemma EveryStepGoesOn(cfg: Config, w: World, args: Args, selected: seq<Selected>, root: Revision)
    requires Going(cfg, w, args, selected) && root !in w.trees && !Arrived(w.proc)
    ensures Steps(cfg, w, args, selected, root)
  {
    hide Steps, Ready, StoresOk, WaitFrom, Present;
    match w.proc
    case Listing(job) => ListingGoesOn(cfg, w, args, selected, root, job);
    case CheckingRefs(job) => ChecksGoOn(cfg, w, args, selected, root, job, Reading(job, 0));
    case Reading(job, i) =>
      if i < |selected| {
        ReadingGoesOn(cfg, w, args, selected, root, job, i);
      } else {
        EndGoesOn(cfg, w, args, selected, root, job);
      }
    case Uploading(job, i, files, j) =>
      UploadingFacts(cfg, w, job, i, files, j);
      if j < |files| {
        UploadGoesOn(cfg, w, args, selected, root, job, i, files, j);
      } else {
        ManifestGoesOn(cfg, w, args, selected, root, job, i, files);
      }
    case PuttingLedger(job, i, files) => LedgerGoesOn(cfg, w, args, selected, root, job, i, files);
    case ReadingBack(job, i) => ReadingBackGoesOn(cfg, w, args, selected, root, job, i);
    case Verifying(job, i, m) => VerifyingGoesOn(cfg, w, args, selected, root, job, i, m);
    case RecheckingHead(job) => ChecksGoOn(cfg, w, args, selected, root, job, RecheckingRefs(job));
    case RecheckingRefs(job) => ChecksGoOn(cfg, w, args, selected, root, job, Squashing(job));
    case _ =>
  }

  /** Worlds that follow each other by steps of the invocation alone. */
  ghost predicate Undisturbed(cfg: Config, worlds: seq<World>, root: Revision)
  {
    worlds != [] && forall k :: 0 <= k < |worlds| - 1 ==> Moves(cfg, worlds[k], Advance(root), worlds[k + 1])
  }

  lemma UndisturbedCons(cfg: Config, w: World, worlds: seq<World>, root: Revision)
    requires Undisturbed(cfg, worlds, root) && Moves(cfg, w, Advance(root), worlds[0])
    ensures Undisturbed(cfg, [w] + worlds, root)
  {
    hide Moves;
    var all := [w] + worlds;
    forall k | 0 <= k < |all| - 1
      ensures Moves(cfg, all[k], Advance(root), all[k + 1])
    {
      if k > 0 {
        assert Moves(cfg, worlds[k - 1], Advance(root), worlds[k - 1 + 1]);
      }
    }
  }

  ghost predicate SameStores(w: World, w': World)
  {
    w'.repo == w.repo && w'.trees == w.trees && w'.invocation == w.invocation
  }

  lemma OnTheWayIsLive(cfg: Config, w: World, args: Args, selected: seq<Selected>)
    requires OnTheWay(cfg, w, args, selected) && !Arrived(w.proc)
    ensures Live(w.proc)
  {
    hide WaitFrom, Present;
  }

  /** An invocation on its way arrives: an archive finishes, a squash stands before the irreversible call. */
  lemma {:induction false} Arrives(cfg: Config, w: World, args: Args, selected: seq<Selected>, root: Revision)
    returns (worlds: seq<World>)
    requires Going(cfg, w, args, selected) && root !in w.trees
    ensures Undisturbed(cfg, worlds, root) && worlds[0] == w
    ensures var last := worlds[|worlds| - 1];
            Going(cfg, last, args, selected) && Arrived(last.proc) && SameStores(w, last)
    decreases CheckpointsLeft(w.proc, |selected|), Phase(w.proc), FilesLeft(w.proc)
  {
    hide CheckpointsLeft, Phase, FilesLeft, Work, OnTheWay, Inv, Ready, StoresOk, Live;
    if Arrived(w.proc) {
      worlds := [w];
    } else {
      EveryStepGoesOn(cfg, w, args, selected, root);
      var w' := Work(cfg, w, root);
      OnTheWayIsLive(cfg, w, args, selected);
      assert Moves(cfg, w, Advance(root), w');
      hide Going, Moves;
      var rest := Arrives(cfg, w', args, selected, root);
      worlds := [w] + rest;
      UndisturbedCons(cfg, w, rest, root);
    }
  }

  /** Where an undisturbed invocation ends: with every selected checkpoint secured, and before the squash if it was
      asked for one. */
  lemma InvocationArrives(cfg: Config, w: World, args: Args, selected: seq<Selected>, root: Revision)
    returns (worlds: seq<World>, job: Job)
    requires Inv(cfg, w) && !Live(w.proc) && Ready(cfg, w.repo, w.trees, args, selected) && root !in w.trees
    requires WaitFrom(cfg, w.bucket, args, selected, 0)
    ensures Undisturbed(cfg, worlds, root) && worlds[0] == Next(cfg, w, Start(args))
    ensures var last := worlds[|worlds| - 1];
            && Inv(cfg, last) && last.repo == w.repo && last.trees == w.trees && last.invocation == w.invocation + 1
            && last.proc == (if args.squash then Squashing(job) else Finished(job)) && IsJob(job, args, selected)
            && (forall k :: 0 <= k < |selected| ==>
                  var before := if args.squash then last.invocation else last.invocation + 1;
                  Secured(cfg, last, args.expectedHead, selected[k], before))
  {
    StartGoes(cfg, w, args, selected);
    hide StoresOk, Ready, WaitFrom, Next, OnTheWay, Undisturbed, Inv, Secured;
    worlds := Arrives(cfg, Next(cfg, w, Start(args)), args, selected, root);
    job := worlds[|worlds| - 1].proc.job;
    ArrivedSecured(cfg, worlds[|worlds| - 1], args, selected, job);
  }

  lemma StartGoes(cfg: Config, w: World, args: Args, selected: seq<Selected>)
    requires Inv(cfg, w) && !Live(w.proc) && Ready(cfg, w.repo, w.trees, args, selected)
    requires WaitFrom(cfg, w.bucket, args, selected, 0)
    ensures Enabled(w, Start(args)) && StoresOk(w.repo, w.trees)
    ensures var start := Next(cfg, w, Start(args));
            && Going(cfg, start, args, selected) && start.repo == w.repo && start.trees == w.trees
            && start.invocation == w.invocation + 1
  {
    hide Selection, Archivable, WaitFrom, Sound, ProcOk, SquashOk;
    StartKeeps(cfg, w, args);
    hide Inv;
  }

  lemma ArrivedSecured(cfg: Config, w: World, args: Args, selected: seq<Selected>, job: Job)
    requires Going(cfg, w, args, selected) && (w.proc == Squashing(job) || w.proc == Finished(job))
    ensures IsJob(job, args, selected)
    ensures forall k :: 0 <= k < |selected| ==>
              Secured(cfg, w, args.expectedHead, selected[k], if args.squash then w.invocation else w.invocation + 1)
    ensures w.proc.Squashing? <==> args.squash
  {
    hide Ready, Sound, SquashOk, StoresOk, Secured, ArgsOk, Matches, TreeSizes;
  }

  /** From any reachable world whose repository is as the arguments say, an undisturbed archive invocation finishes,
      and an undisturbed squash invocation after it arrives at the squash with everything it selected secured. */
  lemma ArchiveThenSquash(cfg: Config, w: World, args: Args, selected: seq<Selected>, root: Revision)
    returns (archive: seq<World>, squash: seq<World>, job: Job)
    requires Inv(cfg, w) && !Live(w.proc) && !args.squash && Ready(cfg, w.repo, w.trees, args, selected)
    requires WaitFrom(cfg, w.bucket, args, selected, 0) && root !in w.trees
    ensures Undisturbed(cfg, archive, root) && archive[0] == Next(cfg, w, Start(args))
    ensures Undisturbed(cfg, squash, root)
    ensures var archived, last := archive[|archive| - 1], squash[|squash| - 1];
            && archived.proc.Finished? && Moves(cfg, archived, Start(args.(squash := true)), squash[0])
            && Inv(cfg, last) && last.proc == Squashing(job) && IsJob(job, args.(squash := true), selected)
            && last.repo == w.repo && last.trees == w.trees
  {
    var done: Job;
    archive, done := InvocationArrives(cfg, w, args, selected, root);
    var archived, again := archive[|archive| - 1], args.(squash := true);
    SecuredIsPresent(cfg, archived, again, selected, archived.invocation + 1);
    ReadyAgain(cfg, w.repo, w.trees, args, selected);
    StartGoes(cfg, archived, again, selected);
    hide WaitFrom, Next, Undisturbed, Inv, Secured, Ready, StoresOk, Enabled;
    squash, job := InvocationArrives(cfg, archived, again, selected, root);
  }

  lemma ReadyAgain(cfg: Config, repo: Repo, trees: map<Revision, Tree>, args: Args, selected: seq<Selected>)
    requires Ready(cfg, repo, trees, args, selected)
    ensures Ready(cfg, repo, trees, args.(squash := true), selected)
  {
    hide Archivable, Selection;
  }

  /** An undisturbed squash takes effect and leaves the bucket alone; the invocation then finishes exactly when the two
      path orders agree on the head. */
  lemma SquashOutcome(cfg: Config, w: World, job: Job, root: Revision, next: Revision)
    requires Inv(cfg, w) && w.proc == Squashing(job) && root !in w.trees && job.args.expectedHead in w.trees
    requires w.repo.commits != [] && w.repo.commits[0].id == job.args.expectedHead
    requires w.repo.branches == ["main"] && w.repo.tags == []
    ensures var squashed := Work(cfg, w, root);
            && Inv(cfg, squashed) && AfterSquash(cfg, squashed, job, root) && squashed.bucket == w.bucket
            && squashed.trees == w.trees[root := w.trees[job.args.expectedHead]]
            && Work(cfg, squashed, next).proc
               == if OrdersAgree(w.trees[job.args.expectedHead]) then Finished(job) else Failed
  {
    hide Inv, Work, StoresOk, OrdersAgree, AfterSquash, SuperSquash;
    SquashingMatches(cfg, w, job);
    SquashTakesEffect(cfg, w, job, root);
    WorkKeeps(cfg, w, root);
    SquashingStep(cfg, w, job, root);
    SquashedTrees(w, job, root);
    FinishOutcome(cfg, Work(cfg, w, root), job, root, next);
  }

  lemma SquashedTrees(w: World, job: Job, root: Revision)
    requires StoresOk(w.repo, w.trees) && Matches(job.args, job.selected) && w.repo.commits != []
    requires job.args.expectedHead in w.trees && w.repo.commits[0].id == job.args.expectedHead
    ensures SuperSquash(w, job, root).proc == Comparing(job)
    ensures SuperSquash(w, job, root).trees == w.trees[root := w.trees[job.args.expectedHead]]
  {
    hide StoresOk;
  }

  lemma SecuredIsPresent(cfg: Config, w: World, args: Args, selected: seq<Selected>, bound: nat)
    requires forall k :: 0 <= k < |selected| ==> Secured(cfg, w, args.expectedHead, selected[k], bound)
    ensures WaitFrom(cfg, w.bucket, args, selected, 0)
  {
    hide ObjectsOk, FileSizes, TreeSizes;
  }
}

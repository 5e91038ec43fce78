/** What every run of the archive-then-squash protocol keeps. */
module ArchiveSafety {
  import opened Wrappers
  import opened Snapshots
  import opened ArchiveSquash
  import opened ArchiveMachine

  // ---------------------------------------------------------------- the invariant

  ghost predicate HasManifest(w: World, run: string, n: nat) { Archived(run, n, MANIFEST) in w.bucket }

  /** A manifest below a prefix is an inventory of its revision, and every file it lists is there with the
      bytes of that revision. */
  ghost predicate Sound(cfg: Config, w: World, run: string, n: nat)
  {
    var key := Archived(run, n, MANIFEST);
    key in w.bucket ==>
      && w.bucket[key].Doc?
      && var m := w.bucket[key].manifest;
      && m.revision in w.trees
      && m.files == Inventory(cfg.sha, w.trees[m.revision])
      && m.writtenBy <= w.invocation
      && Stored(w, run, n, m.revision, m.files, |m.files|)
  }

  /** The first `count` files are in the bucket with the bytes of the revision. */
  ghost predicate Stored(w: World, run: string, n: nat, revision: Revision, files: seq<FileRecord>, count: nat)
    requires revision in w.trees && count <= |files|
  {
    forall k :: 0 <= k < count ==>
      && files[k].path in w.trees[revision]
      && Archived(run, n, files[k].path) in w.bucket
      && w.bucket[Archived(run, n, files[k].path)] == Data(w.trees[revision][files[k].path])
  }

  /** A selected checkpoint is archived: its manifest was written by an invocation before `bound`, names this
      very selection, verifies, and covers the complete source tree. */
  ghost predicate Secured(cfg: Config, w: World, head: Revision, s: Selected, bound: nat)
  {
    var key := ManifestKey(cfg, head, s.n);
    && key in w.bucket && w.bucket[key].Doc?
    && var m := w.bucket[key].manifest;
    && Identity(cfg, m, head, s)
    && m.writtenBy < bound
    && ObjectsOk(cfg, w.bucket, RunKey(cfg, head), s.n, m)
    && s.revision in w.trees
    && FileSizes(m.files) == TreeSizes(w.trees[s.revision])
  }

  /** A squash invocation only finds manifests of earlier invocations. */
  ghost predicate OnlyEarlier(w: World)
  {
    forall run, n :: HasManifest(w, run, n) && w.bucket[Archived(run, n, MANIFEST)].Doc? ==>
      w.bucket[Archived(run, n, MANIFEST)].manifest.writtenBy < w.invocation
  }

  function Bound(w: World, job: Job): nat { if job.args.squash then w.invocation else w.invocation + 1 }

  ghost predicate ArgsOk(w: World, args: Args) { ValidArgs(args) && (args.squash ==> OnlyEarlier(w)) }

  ghost predicate Matches(args: Args, selected: seq<Selected>)
  {
    && ValidArgs(args)
    && |selected| == |args.numbers|
    && (forall k :: 0 <= k < |selected| ==> selected[k].n == args.numbers[k])
    && selected[|selected| - 1].revision == args.expectedHead
  }

  /** The first `i` selected checkpoints are secured. */
  ghost predicate JobOk(cfg: Config, w: World, job: Job, i: nat)
  {
    && ArgsOk(w, job.args) && Matches(job.args, job.selected)
    && job.args.expectedHead in w.trees && job.headSizes == TreeSizes(w.trees[job.args.expectedHead])
    && i <= |job.selected|
    && (forall k :: 0 <= k < i ==> Secured(cfg, w, job.args.expectedHead, job.selected[k], Bound(w, job)))
    && (i == |job.selected| ==>
          && job.headManifest.Some?
          && KeyAt(cfg, job, i - 1) in w.bucket
          && w.bucket[KeyAt(cfg, job, i - 1)] == Doc(job.headManifest.value))
  }

  /** How many of the selected checkpoints an invocation has been through, once it has a selection. */
  function Reached(p: Proc): Option<nat>
  {
    match p
    case CheckingRefs(_) => Some(0)
    case Reading(_, i) => Some(i)
    case Uploading(_, i, _, _) => Some(i)
    case PuttingLedger(_, i, _) => Some(i)
    case ReadingBack(_, i) => Some(i)
    case Verifying(_, i, _) => Some(i)
    case RecheckingHead(job) => Some(|job.selected|)
    case RecheckingRefs(job) => Some(|job.selected|)
    case Squashing(job) => Some(|job.selected|)
    case Comparing(job) => Some(|job.selected|)
    case Finished(job) => Some(|job.selected|)
    case _ => None
  }

  /** What else holds in some of the control states. */
  ghost predicate StateOk(cfg: Config, w: World)
  {
    match w.proc
    case Listing(job) =>
      ArgsOk(w, job.args) && job.args.expectedHead in w.trees
      && job.headSizes == TreeSizes(w.trees[job.args.expectedHead])
    case Uploading(job, i, files, j) => i < |job.selected| && UploadOk(cfg, w, job, i, files, j)
    case PuttingLedger(job, i, files) => i < |job.selected| && !job.args.squash
    case ReadingBack(job, i) => i < |job.selected|
    case Verifying(job, i, m) => i < |job.selected| && Found(cfg, w, job, i, m)
    case RecheckingHead(job) => job.args.squash
    case RecheckingRefs(job) => job.args.squash
    case Squashing(job) => job.args.squash
    case Comparing(job) => job.args.squash
    case Resuming(args, _) => ArgsOk(w, args)
    case _ => true
  }

  ghost predicate UploadOk(cfg: Config, w: World, job: Job, i: nat, files: seq<FileRecord>, j: nat)
    requires i < |job.selected|
  {
    && !job.args.squash
    && KeyAt(cfg, job, i) !in w.bucket
    && job.selected[i].revision in w.trees
    && files == Inventory(cfg.sha, w.trees[job.selected[i].revision])
    && j <= |files|
    && Stored(w, PrefixOf(cfg, job), job.selected[i].n, job.selected[i].revision, files, j)
  }

  ghost predicate Found(cfg: Config, w: World, job: Job, i: nat, m: Manifest)
    requires i < |job.selected|
  {
    && KeyAt(cfg, job, i) in w.bucket && w.bucket[KeyAt(cfg, job, i)] == Doc(m)
    && Identity(cfg, m, job.args.expectedHead, job.selected[i])
  }

  ghost predicate ProcOk(cfg: Config, w: World)
  {
    && (Reached(w.proc).Some? ==> JobOk(cfg, w, w.proc.job, Reached(w.proc).value))
    && StateOk(cfg, w)
  }

  ghost predicate SquashOk(cfg: Config, w: World, q: Squash)
  {
    && q.job.args.squash && Matches(q.job.args, q.job.selected)
    && forall k :: 0 <= k < |q.job.selected| ==>
         Secured(cfg, w, q.job.args.expectedHead, q.job.selected[k], q.invocation)
  }

  ghost predicate Inv(cfg: Config, w: World)
  {
    && StoresOk(w.repo, w.trees)
    && (forall run, n :: Sound(cfg, w, run, n))
    && ProcOk(cfg, w)
    && forall k :: 0 <= k < |w.squashes| ==> SquashOk(cfg, w, w.squashes[k])
  }

  // ---------------------------------------------------------------- what a step leaves alone

  /** Content stays, and nothing changes below a prefix that already has its manifest. */
  ghost predicate Keeps(w: World, w': World)
  {
    && (forall r :: r in w.trees ==> r in w'.trees && w'.trees[r] == w.trees[r])
    && (forall run, n, name :: HasManifest(w, run, n) && Archived(run, n, name) in w.bucket ==>
          Archived(run, n, name) in w'.bucket && w'.bucket[Archived(run, n, name)] == w.bucket[Archived(run, n, name)])
    && w.invocation <= w'.invocation
  }

  lemma SoundKept(cfg: Config, w: World, w': World, run: string, n: nat)
    requires Sound(cfg, w, run, n) && HasManifest(w, run, n) && Keeps(w, w')
    ensures Sound(cfg, w', run, n)
  {
    var m := w.bucket[Archived(run, n, MANIFEST)].manifest;
    assert w'.bucket[Archived(run, n, MANIFEST)] == Doc(m);
    forall k | 0 <= k < |m.files|
      ensures Archived(run, n, m.files[k].path) in w'.bucket
      ensures w'.bucket[Archived(run, n, m.files[k].path)] == Data(w'.trees[m.revision][m.files[k].path])
    {
    }
  }

  lemma SecuredKept(cfg: Config, w: World, w': World, head: Revision, s: Selected, bound: nat, bound': nat)
    requires Secured(cfg, w, head, s, bound) && Keeps(w, w') && bound <= bound'
    ensures Secured(cfg, w', head, s, bound')
    ensures w'.bucket[ManifestKey(cfg, head, s.n)] == w.bucket[ManifestKey(cfg, head, s.n)]
  {
    var run := RunKey(cfg, head);
    var m := w.bucket[ManifestKey(cfg, head, s.n)].manifest;
    assert HasManifest(w, run, s.n);
    forall k | 0 <= k < |m.files|
      ensures ObjectOk(cfg, w'.bucket, run, s.n, m.files[k])
    {
      assert ObjectOk(cfg, w.bucket, run, s.n, m.files[k]);
    }
  }

  lemma SquashesKept(cfg: Config, w: World, w': World)
    requires Inv(cfg, w) && Keeps(w, w')
    ensures forall k :: 0 <= k < |w.squashes| ==> SquashOk(cfg, w', w.squashes[k])
  {
    forall k, i | 0 <= k < |w.squashes| && 0 <= i < |w.squashes[k].job.selected|
      ensures Secured(cfg, w', w.squashes[k].job.args.expectedHead, w.squashes[k].job.selected[i],
              w.squashes[k].invocation)
    {
      var q := w.squashes[k];
      assert SquashOk(cfg, w, q);
      SecuredKept(cfg, w, w', q.job.args.expectedHead, q.job.selected[i], q.invocation, q.invocation);
    }
  }

  lemma JobKept(cfg: Config, w: World, w': World, job: Job, i: nat)
    requires JobOk(cfg, w, job, i) && Keeps(w, w') && w'.invocation == w.invocation
    requires job.args.squash ==> OnlyEarlier(w')
    ensures JobOk(cfg, w', job, i)
  {
    forall k | 0 <= k < i
      ensures Secured(cfg, w', job.args.expectedHead, job.selected[k], Bound(w', job))
      ensures w'.bucket[KeyAt(cfg, job, k)] == w.bucket[KeyAt(cfg, job, k)]
    {
      SecuredKept(cfg, w, w', job.args.expectedHead, job.selected[k], Bound(w, job), Bound(w', job));
    }
  }

  // ---------------------------------------------------------------- steps that write nothing to the bucket

  /** The same bucket, content that only grew, and no earlier invocation number. */
  ghost predicate SameBucket(w: World, w': World)
  {
    && w'.bucket == w.bucket
    && (forall r :: r in w.trees ==> r in w'.trees && w'.trees[r] == w.trees[r])
    && w.invocation <= w'.invocation
  }

  lemma SoundEverywhere(cfg: Config, w: World, w': World)
    requires Inv(cfg, w) && SameBucket(w, w')
    ensures Keeps(w, w')
    ensures forall run, n :: Sound(cfg, w', run, n)
  {
    forall run, n
      ensures Sound(cfg, w', run, n)
    {
      if HasManifest(w, run, n) {
        assert Sound(cfg, w, run, n);
        SoundKept(cfg, w, w', run, n);
      }
    }
  }

  lemma StartKeeps(cfg: Config, w: World, args: Args)
    requires Inv(cfg, w) && Enabled(w, Start(args))
    ensures Inv(cfg, Next(cfg, w, Start(args)))
  {
    var w' := Next(cfg, w, Start(args));
    SoundEverywhere(cfg, w, w');
    SquashesKept(cfg, w, w');
    forall run, n | HasManifest(w', run, n) && w'.bucket[Archived(run, n, MANIFEST)].Doc?
      ensures w'.bucket[Archived(run, n, MANIFEST)].manifest.writtenBy < w'.invocation
    {
      assert Sound(cfg, w, run, n);
    }
  }

  lemma OthersKeep(cfg: Config, w: World, repo: Repo, trees: map<Revision, Tree>)
    requires Inv(cfg, w) && Enabled(w, Others(repo, trees))
    ensures Inv(cfg, Next(cfg, w, Others(repo, trees)))
  {
    var w' := Next(cfg, w, Others(repo, trees));
    SoundEverywhere(cfg, w, w');
    SquashesKept(cfg, w, w');
    ProcKept(cfg, w, w');
  }

  lemma ProcKept(cfg: Config, w: World, w': World)
    requires ProcOk(cfg, w) && Keeps(w, w') && w'.bucket == w.bucket
    requires w'.proc == w.proc && w'.invocation == w.invocation
    ensures ProcOk(cfg, w')
  {
    assert OnlyEarlier(w) ==> OnlyEarlier(w');
    if Reached(w.proc).Some? {
      JobSquashes(cfg, w, w.proc.job, Reached(w.proc).value);
      JobKept(cfg, w, w', w.proc.job, Reached(w.proc).value);
    }
    hide JobOk, Reached;
  }

  lemma JobSquashes(cfg: Config, w: World, job: Job, i: nat)
    requires JobOk(cfg, w, job, i)
    ensures job.args.squash ==> OnlyEarlier(w)
  {
  }

  /** A step that only moves the invocation on, to a state that has reached as many checkpoints. */
  lemma ProcMoves(cfg: Config, w: World, p: Proc)
    requires Inv(cfg, w) && StateOk(cfg, w.(proc := p))
    requires Reached(p).Some? ==> JobOk(cfg, w, p.job, Reached(p).value)
    ensures Inv(cfg, w.(proc := p))
  {
    var w' := w.(proc := p);
    hide StateOk, JobOk;
    SoundEverywhere(cfg, w, w');
    SquashesKept(cfg, w, w');
    if Reached(p).Some? {
      assert OnlyEarlier(w) ==> OnlyEarlier(w');
      JobSquashes(cfg, w, p.job, Reached(p).value);
      JobKept(cfg, w, w', p.job, Reached(p).value);
    }
  }

  lemma ListingKeeps(cfg: Config, w: World)
    requires Inv(cfg, w) && w.proc.Listing?
    ensures Inv(cfg, w.(proc := Listed(cfg, w, w.proc.job)))
  {
    var job := w.proc.job;
    var p := Listed(cfg, w, job);
    hide Sound, SquashOk;
    if p.CheckingRefs? {
      var selected := p.job.selected;
      forall k | 0 <= k < |job.args.numbers|
        ensures |selected| == |job.args.numbers| && selected[k].n == job.args.numbers[k]
      {
        SelectionUnique(cfg, w.repo.commits, job.args.numbers, k);
      }
      assert |selected| == |job.args.numbers|;
      assert JobOk(cfg, w, p.job, 0);
    }
    hide JobOk, Listed;
    ProcMoves(cfg, w, p);
  }

  lemma ReadingKeeps(cfg: Config, w: World)
    requires Inv(cfg, w) && w.proc.Reading?
    ensures Inv(cfg, w.(proc := HasRead(cfg, w, w.proc.job, w.proc.i)))
  {
    var job, i := w.proc.job, w.proc.i;
    var p := HasRead(cfg, w, job, i);
    hide Sound, SquashOk, Secured, Inventory;
    assert JobOk(cfg, w, job, i);
    assert StateOk(cfg, w.(proc := p));
    assert Reached(p).Some? ==> p.job == job && Reached(p).value == i;
    hide JobOk, HasRead, StateOk, Reached;
    ProcMoves(cfg, w, p);
  }

  lemma VerifyingKeeps(cfg: Config, w: World, job: Job, i: nat, m: Manifest)
    requires Inv(cfg, w) && w.proc == Verifying(job, i, m)
    ensures Inv(cfg, w.(proc := Verified(cfg, w, job, i, m)))
  {
    VerifyingFacts(cfg, w, job, i, m);
    var p := Verified(cfg, w, job, i, m);
    hide *;
    if p == Failed {
      GiveUp(cfg, w);
    } else {
      VerifiedSecures(cfg, w, job, i, m);
      ReadOn(cfg, w, p.job, i + 1);
    }
  }

  lemma ReadOn(cfg: Config, w: World, job: Job, i: nat)
    requires Inv(cfg, w) && JobOk(cfg, w, job, i)
    ensures Inv(cfg, w.(proc := Reading(job, i)))
  {
    hide Inv, JobOk;
    ProcMoves(cfg, w, Reading(job, i));
  }

  lemma GiveUp(cfg: Config, w: World)
    requires Inv(cfg, w)
    ensures Inv(cfg, w.(proc := Failed))
  {
    hide Inv, JobOk;
    ProcMoves(cfg, w, Failed);
  }

  lemma VerifyingFacts(cfg: Config, w: World, job: Job, i: nat, m: Manifest)
    requires Inv(cfg, w) && w.proc == Verifying(job, i, m)
    ensures i < |job.selected| && JobOk(cfg, w, job, i) && Found(cfg, w, job, i, m)
    ensures Sound(cfg, w, PrefixOf(cfg, job), job.selected[i].n)
    ensures StoresOk(w.repo, w.trees)
    ensures var p := Verified(cfg, w, job, i, m); p == Failed || (p.Reading? && p == Reading(p.job, i + 1))
  {
    hide JobOk, Found, Sound, SquashOk, ObjectsOk, TreeSizes, FileSizes;
  }

  /** A manifest that passes both verifications secures its checkpoint. */
  lemma VerifiedSecures(cfg: Config, w: World, job: Job, i: nat, m: Manifest)
    requires StoresOk(w.repo, w.trees)
    requires i < |job.selected| && JobOk(cfg, w, job, i) && Found(cfg, w, job, i, m)
    requires Sound(cfg, w, PrefixOf(cfg, job), job.selected[i].n)
    requires Verified(cfg, w, job, i, m).Reading?
    ensures JobOk(cfg, w, Verified(cfg, w, job, i, m).job, i + 1)
  {
    hide Stored, ObjectsOk, Inventory, FileSizes, TreeSizes;
    var job' := Verified(cfg, w, job, i, m).job;
    assert m.writtenBy < Bound(w, job);
    assert Secured(cfg, w, job.args.expectedHead, job.selected[i], Bound(w, job));
    forall k | 0 <= k < i + 1
      ensures Secured(cfg, w, job'.args.expectedHead, job'.selected[k], Bound(w, job'))
    {
    }
  }

  lemma SquashKeeps(cfg: Config, w: World, root: Revision)
    requires Inv(cfg, w) && w.proc.Squashing? && root !in w.trees
    ensures Inv(cfg, SuperSquash(w, w.proc.job, root))
  {
    var job := w.proc.job;
    var w' := SuperSquash(w, job, root);
    if w'.proc.Failed? {
      ProcMoves(cfg, w, Failed);
    } else {
      assert JobOk(cfg, w, job, |job.selected|) && job.args.squash;
      SquashStores(w, job, root);
      hide Inv, JobOk, SquashTitle, StoresOk, SameBucket;
      SquashSecures(cfg, w, w', job);
      hide SuperSquash;
      ComparingKeeps(cfg, w', job, w.squashes);
    }
  }

  /** As long as the bucket stays, what was secured and sound stays so, and the job's own selection is secured. */
  lemma SquashSecures(cfg: Config, w: World, w': World, job: Job)
    requires Inv(cfg, w) && JobOk(cfg, w, job, |job.selected|) && job.args.squash
    requires SameBucket(w, w') && w'.invocation == w.invocation
    ensures forall run, n :: Sound(cfg, w', run, n)
    ensures forall k :: 0 <= k < |w.squashes| ==> SquashOk(cfg, w', w.squashes[k])
    ensures JobOk(cfg, w', job, |job.selected|) && SquashOk(cfg, w', Squash(job, w'.invocation))
  {
    hide Sound, JobOk, Inv, SquashOk;
    SoundEverywhere(cfg, w, w');
    SquashesKept(cfg, w, w');
    JobSquashes(cfg, w, job, |job.selected|);
    assert OnlyEarlier(w) ==> OnlyEarlier(w');
    JobKept(cfg, w, w', job, |job.selected|);
    JobSecures(cfg, w', job);
  }

  lemma ComparingKeeps(cfg: Config, w: World, job: Job, earlier: seq<Squash>)
    requires StoresOk(w.repo, w.trees) && w.proc == Comparing(job) && job.args.squash
    requires w.squashes == earlier + [Squash(job, w.invocation)]
    requires forall run, n :: Sound(cfg, w, run, n)
    requires forall k :: 0 <= k < |earlier| ==> SquashOk(cfg, w, earlier[k])
    requires JobOk(cfg, w, job, |job.selected|) && SquashOk(cfg, w, Squash(job, w.invocation))
    ensures Inv(cfg, w)
  {
    hide Sound, JobOk, SquashOk, StoresOk;
  }

  lemma SquashStores(w: World, job: Job, root: Revision)
    requires StoresOk(w.repo, w.trees) && root !in w.trees && SuperSquash(w, job, root).proc.Comparing?
    ensures var w' := SuperSquash(w, job, root);
            StoresOk(w'.repo, w'.trees) && SameBucket(w, w') && w'.invocation == w.invocation
  {
    assert w.repo.commits[0] in w.repo.commits;
  }

  /** A squash invocation that has been through its whole selection has all of it secured. */
  lemma JobSecures(cfg: Config, w: World, job: Job)
    requires JobOk(cfg, w, job, |job.selected|) && job.args.squash
    ensures SquashOk(cfg, w, Squash(job, w.invocation))
  {
  }

  // ---------------------------------------------------------------- steps that write to the bucket

  /** Writing one object below a prefix whose manifest is missing, or a ledger entry, leaves every archived
      checkpoint alone. */
  lemma PutKeeps(w: World, w': World, key: Key, content: Object)
    requires w'.bucket == w.bucket[key := content] && w'.trees == w.trees && w'.invocation == w.invocation
    requires key.Ledger? || !HasManifest(w, key.run, key.n)
    ensures Keeps(w, w')
  {
  }

  lemma SoundAfterPut(cfg: Config, w: World, w': World, key: Key, content: Object)
    requires Inv(cfg, w) && Keeps(w, w') && w'.bucket == w.bucket[key := content]
    requires key.Ledger? || key.name != MANIFEST
    ensures forall run, n :: Sound(cfg, w', run, n)
  {
    forall run, n
      ensures Sound(cfg, w', run, n)
    {
      if HasManifest(w', run, n) {
        assert HasManifest(w, run, n) && Sound(cfg, w, run, n);
        SoundKept(cfg, w, w', run, n);
      }
    }
  }

  lemma LedgerKeeps(cfg: Config, w: World)
    requires Inv(cfg, w) && w.proc.PuttingLedger?
    ensures Inv(cfg, Work(cfg, w, ""))
  {
    var job, i := w.proc.job, w.proc.i;
    var w' := Work(cfg, w, "");
    var key := Ledger(PrefixOf(cfg, job), job.selected[i].n);
    var content := Doc(NewManifest(cfg, w, job, i, w.proc.files));
    PutKeeps(w, w', key, content);
    SoundAfterPut(cfg, w, w', key, content);
    SquashesKept(cfg, w, w');
    assert OnlyEarlier(w) ==> OnlyEarlier(w') by {
      assert forall run, n :: HasManifest(w', run, n) ==>
          HasManifest(w, run, n) && w'.bucket[Archived(run, n, MANIFEST)] == w.bucket[Archived(run, n, MANIFEST)];
    }
    JobKept(cfg, w, w', job, i);
  }

  lemma UploadKeeps(cfg: Config, w: World)
    requires Inv(cfg, w) && w.proc.Uploading? && w.proc.j < |w.proc.files|
    ensures Inv(cfg, Work(cfg, w, ""))
  {
    var job, i, files, j := w.proc.job, w.proc.i, w.proc.files, w.proc.j;
    var s, run := job.selected[i], PrefixOf(cfg, job);
    var tree, path := w.trees[s.revision], files[j].path;
    InventoryPath(cfg.sha, tree, j);
    assert path != MANIFEST && JobOk(cfg, w, job, i);
    var w' := Work(cfg, w, "");
    var key := Archived(run, s.n, path);
    assert w' == w.(bucket := w.bucket[key := Data(tree[path])], proc := Uploading(job, i, files, j + 1));
    hide Work, Sound, SquashOk, JobOk, Inventory;
    OneMoreStored(cfg, w, w', job, i, files, j);
    hide UploadOk, Stored;
    PutKeeps(w, w', key, Data(tree[path]));
    SoundAfterPut(cfg, w, w', key, Data(tree[path]));
    SquashesKept(cfg, w, w');
    JobKept(cfg, w, w', job, i);
  }

  lemma OneMoreStored(cfg: Config, w: World, w': World, job: Job, i: nat, files: seq<FileRecord>, j: nat)
    requires i < |job.selected| && UploadOk(cfg, w, job, i, files, j) && j < |files|
    requires w'.trees == w.trees && files[j].path != MANIFEST
    requires files[j].path in w.trees[job.selected[i].revision]
    requires w'.bucket == w.bucket[Archived(PrefixOf(cfg, job), job.selected[i].n, files[j].path)
                                   := Data(w.trees[job.selected[i].revision][files[j].path])]
    ensures UploadOk(cfg, w', job, i, files, j + 1)
  {
    hide Inventory;
  }

  lemma InventoryPath(sha: Bytes -> string, tree: Tree, k: nat)
    requires k < |Inventory(sha, tree)|
    ensures Inventory(sha, tree)[k].path in tree
  {
    assert OrderedPaths(tree)[k] in SnapshotPaths(tree);
  }

  /** The manifest goes in last, and completes its prefix. */
  lemma ManifestKeeps(cfg: Config, w: World)
    requires Inv(cfg, w) && w.proc.Uploading? && w.proc.j == |w.proc.files|
    ensures Inv(cfg, Work(cfg, w, ""))
  {
    var job, i, files := w.proc.job, w.proc.i, w.proc.files;
    var s, run := job.selected[i], PrefixOf(cfg, job);
    var m := NewManifest(cfg, w, job, i, files);
    var key := KeyAt(cfg, job, i);
    var w' := Work(cfg, w, "");
    assert w'.bucket == w.bucket[key := Doc(m)];
    PutKeeps(w, w', key, Doc(m));
    SquashesKept(cfg, w, w');
    JobKept(cfg, w, w', job, i);
    forall r, n
      ensures Sound(cfg, w', r, n)
    {
      if r == run && n == s.n {
        forall k | 0 <= k < |files|
          ensures Archived(run, n, files[k].path) in w'.bucket
          ensures w'.bucket[Archived(run, n, files[k].path)] == Data(w'.trees[s.revision][files[k].path])
        {
          InventoryPath(cfg.sha, w.trees[s.revision], k);
          assert files[k].path != MANIFEST;
        }
      } else if HasManifest(w', r, n) {
        assert HasManifest(w, r, n) && Sound(cfg, w, r, n);
        SoundKept(cfg, w, w', r, n);
      }
    }
  }

  // ---------------------------------------------------------------- every run

  lemma CheckKeeps(cfg: Config, w: World, root: Revision)
    requires Inv(cfg, w)
    requires w.proc.CheckingRefs? || w.proc.ReadingBack? || w.proc.RecheckingHead? || w.proc.RecheckingRefs?
             || w.proc.Comparing? || w.proc.Resuming?
    ensures Inv(cfg, Work(cfg, w, root))
  {
    hide JobOk, Sound, SquashOk, Identity, RootOk, ResumeAccepts, TreeSizes;
    var p := Work(cfg, w, root).proc;
    assert Work(cfg, w, root) == w.(proc := p);
    assert StateOk(cfg, w.(proc := p));
    assert Reached(p).Some? ==> p.job == w.proc.job && Reached(p) == Reached(w.proc);
    hide StateOk, Reached, Work;
    ProcMoves(cfg, w, p);
  }

  lemma WorkKeeps(cfg: Config, w: World, root: Revision)
    requires Inv(cfg, w) && root !in w.trees
    ensures Inv(cfg, Work(cfg, w, root))
  {
    hide Inv;
    match w.proc
    case Listing(job) => ListingKeeps(cfg, w);
    case Reading(job, i) => ReadingKeeps(cfg, w);
    case Uploading(job, i, files, j) => BucketKeeps(cfg, w, root);
    case PuttingLedger(job, i, files) => BucketKeeps(cfg, w, root);
    case Verifying(job, i, m) => VerifyingKeeps(cfg, w, job, i, m);
    case Squashing(job) => SquashKeeps(cfg, w, root);
    case Idle =>
    case Failed =>
    case Finished(_) =>
    case Resumed(_) =>
    case _ => CheckKeeps(cfg, w, root);
  }

  lemma BucketKeeps(cfg: Config, w: World, root: Revision)
    requires Inv(cfg, w) && (w.proc.Uploading? || w.proc.PuttingLedger?)
    ensures Inv(cfg, Work(cfg, w, root))
  {
    assert Work(cfg, w, root) == Work(cfg, w, "");
    if w.proc.PuttingLedger? {
      LedgerKeeps(cfg, w);
    } else {
      assert w.proc.j <= |w.proc.files|;
      hide Inv, Work;
      if w.proc.j < |w.proc.files| {
        UploadKeeps(cfg, w);
      } else {
        ManifestKeeps(cfg, w);
      }
    }
  }

  lemma NextKeeps(cfg: Config, w: World, a: Action)
    requires Inv(cfg, w) && Enabled(w, a)
    ensures Inv(cfg, Next(cfg, w, a))
  {
    match a
    case Start(args) => StartKeeps(cfg, w, args);
    case Advance(root) => WorkKeeps(cfg, w, root);
    case Crash => ProcMoves(cfg, w, Idle);
    case Others(repo, trees) => OthersKeep(cfg, w, repo, trees);
  }

  lemma {:induction false} RunKeeps(cfg: Config, worlds: seq<World>, actions: seq<Action>, k: nat)
    requires Run(cfg, worlds, actions) && k < |worlds|
    ensures Inv(cfg, worlds[k])
  {
    if k > 0 {
      RunKeeps(cfg, worlds, actions, k - 1);
      assert Moves(cfg, worlds[k - 1], actions[k - 1], worlds[k - 1 + 1]);
      NextKeeps(cfg, worlds[k - 1], actions[k - 1]);
    }
  }
}

/** The steps of `main` in `scripts/archive_finished_hf_run.py`, each store operation on its own, so that a
    crash or another writer can come between any two of them. */
module ArchiveMachine {
  import opened Wrappers
  import opened Snapshots
  import opened ArchiveSquash
  import Orders

  /** One invocation at work: its arguments, the head's file sizes, its selection, and the head's manifest. */
  datatype Job = Job(args: Args, headSizes: map<Path, nat>, selected: seq<Selected>, headManifest: Option<Manifest>)

  datatype Proc =
    | Idle
    | Failed
    | Finished(job: Job)
    | Resumed(args: Args)
    | Listing(job: Job)
    | CheckingRefs(job: Job)
    | Reading(job: Job, i: nat)
    | Uploading(job: Job, i: nat, files: seq<FileRecord>, j: nat)
    | PuttingLedger(job: Job, i: nat, files: seq<FileRecord>)
    | ReadingBack(job: Job, i: nat)
    | Verifying(job: Job, i: nat, manifest: Manifest)
    | RecheckingHead(job: Job)
    | RecheckingRefs(job: Job)
    | Squashing(job: Job)
    | Comparing(job: Job)
    | Resuming(args: Args, finalHead: Revision)

  /** A super-squash that took effect, for stating what it relied on. */
  datatype Squash = Squash(job: Job, invocation: nat)

  /** The stores, the content of every revision that ever existed, the number of invocations so far, the
      invocation at work, and the squashes so far. */
  datatype World = World(
    repo: Repo, trees: map<Revision, Tree>, bucket: Bucket,
    invocation: nat, proc: Proc, squashes: seq<Squash>)

  datatype Action =
    | Start(args: Args)
    | Advance(root: Revision)
    | Crash
    | Others(repo: Repo, trees: map<Revision, Tree>)

  ghost predicate Init(w: World)
  {
    StoresOk(w.repo, w.trees) && w.bucket == map[] && w.invocation == 0 && w.proc == Idle && w.squashes == []
  }

  /** Commits and stored revisions have content, and no snapshot file takes the manifest's key. */
  ghost predicate StoresOk(repo: Repo, trees: map<Revision, Tree>)
  {
    && (forall c :: c in repo.commits ==> c.id in trees)
    && (forall r :: r in repo.stored ==> r in trees)
    && (forall r :: r in trees ==> MANIFEST !in trees[r])
  }

  ghost predicate Live(p: Proc) { !p.Idle? && !p.Failed? && !p.Finished? && !p.Resumed? }

  /** Other writers may do anything to the repository except change the content of a revision. */
  ghost predicate Enabled(w: World, a: Action)
  {
    match a
    case Start(args) => !Live(w.proc) && ValidArgs(args)
    case Advance(root) => Live(w.proc) && root !in w.trees
    case Crash => true
    case Others(repo, trees) =>
      StoresOk(repo, trees) && forall r :: r in w.trees ==> r in trees && trees[r] == w.trees[r]
  }

  ghost function Next(cfg: Config, w: World, a: Action): World
    requires StoresOk(w.repo, w.trees) && Enabled(w, a)
  {
    match a
    case Start(args) => w.(invocation := w.invocation + 1, proc := Started(w, args))
    case Advance(root) => Work(cfg, w, root)
    case Crash => w.(proc := Idle)
    case Others(repo, trees) => w.(repo := repo, trees := trees)
  }

  /** Reading the head decides between working, resuming and refusing. */
  ghost function Started(w: World, args: Args): Proc
    requires StoresOk(w.repo, w.trees)
  {
    if w.repo.commits == [] then Failed else
    var head := w.repo.commits[0].id;
    if head == args.expectedHead then Listing(Job(args, TreeSizes(w.trees[head]), [], None))
    else if args.squash then Resuming(args, head)
    else Failed
  }

  function PrefixOf(cfg: Config, job: Job): string { RunKey(cfg, job.args.expectedHead) }

  function KeyAt(cfg: Config, job: Job, i: nat): Key
    requires i < |job.selected|
  {
    ManifestKey(cfg, job.args.expectedHead, job.selected[i].n)
  }

  function NewManifest(cfg: Config, w: World, job: Job, i: nat, files: seq<FileRecord>): Manifest
    requires i < |job.selected|
  {
    Manifest(cfg.repoId, job.args.expectedHead, job.selected[i].n, job.selected[i].revision, files, w.invocation)
  }

  ghost function Work(cfg: Config, w: World, root: Revision): World
    requires StoresOk(w.repo, w.trees)
  {
    match w.proc
    case Listing(job) => w.(proc := Listed(cfg, w, job))
    case CheckingRefs(job) =>
      w.(proc := if w.repo.tags == [] && forall b :: b in w.repo.branches ==> b == "main"
                 then Reading(job, 0) else Failed)
    case Reading(job, i) => w.(proc := HasRead(cfg, w, job, i))
    case Uploading(job, i, files, j) => Upload(cfg, w, job, i, files, j)
    case PuttingLedger(job, i, files) =>
      if i >= |job.selected| then w.(proc := Failed) else
      w.(bucket := w.bucket[Ledger(PrefixOf(cfg, job), job.selected[i].n) := Doc(NewManifest(cfg, w, job, i, files))],
         proc := ReadingBack(job, i))
    case ReadingBack(job, i) => w.(proc := HasReadBack(cfg, w, job, i))
    case Verifying(job, i, m) => w.(proc := Verified(cfg, w, job, i, m))
    case RecheckingHead(job) =>
      w.(proc := if w.repo.commits != [] && w.repo.commits[0].id == job.args.expectedHead
                 then RecheckingRefs(job) else Failed)
    case RecheckingRefs(job) =>
      w.(proc := if w.repo.tags == [] && w.repo.branches == ["main"] then Squashing(job) else Failed)
    case Squashing(job) => SuperSquash(w, job, root)
    case Comparing(job) => w.(proc := if RootOk(cfg, w, job) then Finished(job) else Failed)
    case Resuming(args, finalHead) =>
      w.(proc := if ResumeAccepts(cfg, w, args, finalHead) then Resumed(args) else Failed)
    case _ => w
  }

  ghost function Listed(cfg: Config, w: World, job: Job): Proc
  {
    match Selection(cfg, w.repo.commits, job.args.numbers)
    case Err(_) => Failed
    case Ok(selected) =>
      if selected == [] || selected[|selected| - 1].revision != job.args.expectedHead then Failed
      else CheckingRefs(job.(selected := selected))
  }

  /** The next manifest is there, or is missing; a squash never writes a missing one. */
  ghost function HasRead(cfg: Config, w: World, job: Job, i: nat): Proc
    requires StoresOk(w.repo, w.trees)
  {
    if i >= |job.selected| then
      if job.headManifest.None? then Failed
      else if job.args.squash then RecheckingHead(job)
      else Finished(job)
    else
      var key, s := KeyAt(cfg, job, i), job.selected[i];
      if key in w.bucket then
        if w.bucket[key].Doc? && Identity(cfg, w.bucket[key].manifest, job.args.expectedHead, s)
        then Verifying(job, i, w.bucket[key].manifest) else Failed
      else if job.args.squash || s.revision !in w.repo.stored then Failed
      else
        var files := Inventory(cfg.sha, w.trees[s.revision]);
        if files == [] then Failed else Uploading(job, i, files, 0)
  }

  /** One data object, or after the last of them the manifest. */
  ghost function Upload(cfg: Config, w: World, job: Job, i: nat, files: seq<FileRecord>, j: nat): World
  {
    if i >= |job.selected| || job.selected[i].revision !in w.trees then w.(proc := Failed)
    else if j >= |files| then
      w.(bucket := w.bucket[KeyAt(cfg, job, i) := Doc(NewManifest(cfg, w, job, i, files))],
         proc := PuttingLedger(job, i, files))
    else
      var tree, path := w.trees[job.selected[i].revision], files[j].path;
      if path !in tree then w.(proc := Failed) else
      w.(bucket := w.bucket[Archived(PrefixOf(cfg, job), job.selected[i].n, path) := Data(tree[path])],
         proc := Uploading(job, i, files, j + 1))
  }

  ghost function HasReadBack(cfg: Config, w: World, job: Job, i: nat): Proc
  {
    if i >= |job.selected| then Failed else
    var key := KeyAt(cfg, job, i);
    if key in w.bucket && w.bucket[key].Doc?
       && Identity(cfg, w.bucket[key].manifest, job.args.expectedHead, job.selected[i])
    then Verifying(job, i, w.bucket[key].manifest) else Failed
  }

  /** `_verify_objects` and then `_verify_source_inventory`. */
  ghost function Verified(cfg: Config, w: World, job: Job, i: nat, m: Manifest): Proc
    requires StoresOk(w.repo, w.trees)
  {
    if i >= |job.selected| then Failed else
    var s := job.selected[i];
    if && ObjectsOk(cfg, w.bucket, PrefixOf(cfg, job), s.n, m)
       && s.revision in w.repo.stored
       && w.trees[s.revision] != map[] && TreeSizes(w.trees[s.revision]) == FileSizes(m.files)
    then Reading(if s.revision == job.args.expectedHead then job.(headManifest := Some(m)) else job, i + 1)
    else Failed
  }

  /** The branch becomes one commit with the tree that its head has at that moment. */
  ghost function SuperSquash(w: World, job: Job, root: Revision): World
    requires StoresOk(w.repo, w.trees)
  {
    if w.repo.commits == [] || job.selected == [] then w.(proc := Failed) else
    var title := SquashTitle(job.selected[|job.selected| - 1].n, job.args.expectedHead);
    w.(repo := w.repo.(commits := [Commit(root, title)], stored := {root}),
       trees := w.trees[root := w.trees[w.repo.commits[0].id]],
       proc := Comparing(job),
       squashes := w.squashes + [Squash(job, w.invocation)])
  }

  /** The checks on the new root that end a squash invocation. */
  ghost predicate RootOk(cfg: Config, w: World, job: Job)
    requires StoresOk(w.repo, w.trees)
  {
    && |w.repo.commits| == 1
    && var root := w.repo.commits[0].id;
    && root != job.args.expectedHead && root in w.repo.stored
    && TreeSizes(w.trees[root]) == job.headSizes
    && job.headManifest.Some?
    && Inventory(cfg.sha, w.trees[root]) == Orders.Sort(job.headManifest.value.files, RecordLe)
  }

  ghost predicate ResumeAccepts(cfg: Config, w: World, args: Args, finalHead: Revision)
    requires StoresOk(w.repo, w.trees)
  {
    && ValidArgs(args)
    && finalHead in w.repo.stored
    && ResumeOk(cfg, w.repo, w.bucket, args, finalHead,
                TreeSizes(w.trees[finalHead]), Inventory(cfg.sha, w.trees[finalHead]))
  }

  /** Every reachable world, whatever the interleaving. */
  ghost predicate Run(cfg: Config, worlds: seq<World>, actions: seq<Action>)
  {
    && |worlds| == |actions| + 1
    && Init(worlds[0])
    && forall k :: 0 <= k < |actions| ==> Moves(cfg, worlds[k], actions[k], worlds[k + 1])
  }

  ghost predicate Moves(cfg: Config, w: World, a: Action, w': World)
  {
    StoresOk(w.repo, w.trees) && Enabled(w, a) && w' == Next(cfg, w, a)
  }
}

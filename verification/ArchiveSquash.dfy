/** The archive-then-squash protocol of `scripts/archive_finished_hf_run.py`: one repository, one bucket, any
    number of invocations that may crash between any two store operations, and other writers. */
module ArchiveSquash {
  import opened Wrappers
  import opened Snapshots
  import Orders
  import Text

  type Revision = string

  const MANIFEST: string := "manifest.json"

  datatype Commit = Commit(id: Revision, title: string)

  /** The repository: commits newest first, branch and tag names, and the revisions that can be downloaded. */
  datatype Repo = Repo(commits: seq<Commit>, branches: seq<string>, tags: seq<string>, stored: set<Revision>)

  /** A manifest. `writtenBy` numbers the invocation that wrote it, in place of its time stamp. */
  datatype Manifest = Manifest(
    repoId: string, sourceHead: Revision, checkpointN: nat, revision: Revision,
    files: seq<FileRecord>, writtenBy: nat)

  datatype Object = Data(bytes: Bytes) | Doc(manifest: Manifest)

  /** Object keys: a snapshot file or the manifest below a checkpoint prefix, or a ledger entry. */
  datatype Key = Archived(run: string, n: nat, name: string) | Ledger(run: string, n: nat)

  type Bucket = map<Key, Object>

  /** What does not change: the repository name and its sanitised form, the title parser and the hash. */
  datatype Config = Config(
    repoId: string, runName: string, numberOf: string -> Option<nat>, sha: Bytes -> string)

  datatype Args = Args(numbers: seq<nat>, expectedHead: Revision, squash: bool)

  datatype Selected = Selected(n: nat, revision: Revision)

  function RunKey(cfg: Config, head: Revision): string
  {
    "finished-" + cfg.runName + "-" + Text.Take(head, 12)
  }

  function ManifestKey(cfg: Config, head: Revision, n: nat): Key { Archived(RunKey(cfg, head), n, MANIFEST) }

  /** The title of the squashed root, as both functions of the script compose it. */
  function SquashTitle(n: nat, head: Revision): string
  {
    "checkpoint " + Text.Decimal(n) + " (finished run; R2 milestones verified; source " + Text.Take(head, 12) + ")"
  }

  /** `_checkpoint_numbers` returns a non-empty list in strictly increasing order. */
  predicate ValidArgs(args: Args)
  {
    args.numbers != [] && forall i, j :: 0 <= i < j < |args.numbers| ==> args.numbers[i] < args.numbers[j]
  }

  // ---------------------------------------------------------------- selecting commits

  predicate Titled(cfg: Config, c: Commit, n: nat) { cfg.numberOf(c.title) == Some(n) }

  function FirstTitled(cfg: Config, commits: seq<Commit>, n: nat): Option<Revision>
  {
    if commits == [] then None else
    var before := FirstTitled(cfg, commits[..|commits| - 1], n);
    var last := commits[|commits| - 1];
    if before.None? && Titled(cfg, last, n) then Some(last.id) else before
  }

  predicate Ambiguous(cfg: Config, commits: seq<Commit>, n: nat)
  {
    exists c, d :: c in commits && d in commits && Titled(cfg, c, n) && Titled(cfg, d, n) && c.id != d.id
  }

  /** A full lowercase commit id. */
  predicate Immutable(r: Revision) { |r| == 40 && forall i :: 0 <= i < |r| ==> Text.IsHex(r[i]) }

  function Selection(cfg: Config, commits: seq<Commit>, numbers: seq<nat>): Result<seq<Selected>>
  {
    if exists n :: n in numbers && Ambiguous(cfg, commits, n) then Err("ambiguous")
    else if exists n :: n in numbers && FirstTitled(cfg, commits, n).None? then Err("absent")
    else if exists n :: n in numbers && !Immutable(FirstTitled(cfg, commits, n).value) then Err("revision")
    else Ok(seq(|numbers|, i requires 0 <= i < |numbers| && FirstTitled(cfg, commits, numbers[i]).Some? =>
                  Selected(numbers[i], FirstTitled(cfg, commits, numbers[i]).value)))
  }

  lemma {:induction false} FirstTitledIs(cfg: Config, commits: seq<Commit>, n: nat)
    ensures FirstTitled(cfg, commits, n).Some? <==> exists c :: c in commits && Titled(cfg, c, n)
    ensures FirstTitled(cfg, commits, n).Some? ==>
              exists c :: c in commits && Titled(cfg, c, n) && c.id == FirstTitled(cfg, commits, n).value
  {
    if commits != [] {
      var rest, last := commits[..|commits| - 1], commits[|commits| - 1];
      FirstTitledIs(cfg, rest, n);
      assert commits == rest + [last];
      if c :| c in rest && Titled(cfg, c, n) && FirstTitled(cfg, rest, n) == Some(c.id) {
        assert c in commits;
      } else if Titled(cfg, last, n) {
        assert last in commits;
      }
    }
  }

  /** `_selected_commits`, with its dictionary from number to commit. */
  method SelectCommits(cfg: Config, commits: seq<Commit>, numbers: seq<nat>) returns (r: Result<seq<Selected>>)
    ensures r == Selection(cfg, commits, numbers)
  {
    var byNumber: map<nat, Revision> := map[];
    for i := 0 to |commits|
      invariant forall n :: n in byNumber <==> FirstTitled(cfg, commits[..i], n).Some?
      invariant forall n :: n in byNumber ==> FirstTitled(cfg, commits[..i], n) == Some(byNumber[n])
      invariant forall n, j :: n in numbers && 0 <= j < i && Titled(cfg, commits[j], n) ==>
                  n in byNumber && byNumber[n] == commits[j].id
    {
      assert commits[..i + 1][..i] == commits[..i];
      var number := cfg.numberOf(commits[i].title);
      if number.Some? {
        var n := number.value;
        if n in numbers && n in byNumber && byNumber[n] != commits[i].id {
          FirstTitledIs(cfg, commits[..i], n);
          assert commits[i] in commits;
          assert Ambiguous(cfg, commits, n);
          return Err("ambiguous");
        }
        if n !in byNumber {
          byNumber := byNumber[n := commits[i].id];
        }
      }
    }
    assert commits[..|commits|] == commits;
    forall n | n in numbers
      ensures !Ambiguous(cfg, commits, n)
    {
    }
    if exists n :: n in numbers && n !in byNumber {
      return Err("absent");
    }
    var selected: seq<Selected> := [];
    hide Immutable, Ambiguous;
    for i := 0 to |numbers|
      invariant |selected| == i
      invariant forall k :: 0 <= k < i ==>
                  FirstTitled(cfg, commits, numbers[k]) == Some(selected[k].revision) && selected[k].n == numbers[k]
      invariant forall k :: 0 <= k < i ==> Immutable(selected[k].revision)
    {
      var n := numbers[i];
      assert n in numbers;
      if !Immutable(byNumber[n]) {
        return Err("revision");
      }
      selected := selected + [Selected(n, byNumber[n])];
    }
    assert forall n :: n in numbers ==> Immutable(FirstTitled(cfg, commits, n).value);
    assert Selection(cfg, commits, numbers).Ok? && selected == Selection(cfg, commits, numbers).value;
    return Ok(selected);
  }

  /** A selection names, for each requested number, the one revision that carries it. */
  lemma SelectionUnique(cfg: Config, commits: seq<Commit>, numbers: seq<nat>, k: nat)
    requires Selection(cfg, commits, numbers).Ok? && k < |numbers|
    ensures var s := Selection(cfg, commits, numbers).value;
            && |s| == |numbers| && s[k].n == numbers[k] && Immutable(s[k].revision)
            && (forall c :: c in commits && Titled(cfg, c, numbers[k]) ==> c.id == s[k].revision)
            && (exists c :: c in commits && Titled(cfg, c, numbers[k]))
  {
    hide Immutable;
    FirstTitledIs(cfg, commits, numbers[k]);
    assert numbers[k] in numbers;
  }

  // ---------------------------------------------------------------- verifying an archive

  /** `_assert_manifest_identity`. */
  predicate Identity(cfg: Config, m: Manifest, head: Revision, s: Selected)
  {
    m.repoId == cfg.repoId && m.sourceHead == head && m.checkpointN == s.n && m.revision == s.revision
  }

  /** The form that `_verify_objects` demands of a listed path: a relative canonical POSIX path. */
  predicate CanonicalPath(p: Path)
  {
    var parts := Components(p);
    p != "" && '\\' !in p && "" !in parts && ".." !in parts && ("." !in parts || parts == ["."])
  }

  predicate RecordOk(r: FileRecord)
  {
    CanonicalPath(r.path) && |r.sha256| == 64 && forall i :: 0 <= i < 64 ==> Text.IsHex(r.sha256[i])
  }

  predicate ObjectOk(cfg: Config, bucket: Bucket, run: string, n: nat, r: FileRecord)
  {
    var key := Archived(run, n, r.path);
    key in bucket && bucket[key].Data? && |bucket[key].bytes| == r.size && cfg.sha(bucket[key].bytes) == r.sha256
  }

  predicate DistinctPaths(files: seq<FileRecord>)
  {
    forall i, j :: 0 <= i < j < |files| ==> files[i].path != files[j].path
  }

  /** What `_verify_objects` accepts: a non-empty list of distinct, well-formed records, each of which is
      backed by an object with its size and hash. */
  predicate ObjectsOk(cfg: Config, bucket: Bucket, run: string, n: nat, m: Manifest)
  {
    && m.files != []
    && DistinctPaths(m.files)
    && forall i :: 0 <= i < |m.files| ==> RecordOk(m.files[i]) && ObjectOk(cfg, bucket, run, n, m.files[i])
  }

  /** `_verify_objects`, with its set of seen paths. */
  method VerifyObjects(cfg: Config, bucket: Bucket, run: string, n: nat, m: Manifest) returns (ok: bool)
    ensures ok <==> ObjectsOk(cfg, bucket, run, n, m)
  {
    if m.files == [] {
      return false;
    }
    var seen: set<Path> := {};
    var files := m.files;
    assert DistinctPaths(files[..0]) && PathsOf(files[..0]) == {};
    hide RecordOk, ObjectOk, DistinctPaths, PathsOf;
    for i := 0 to |files|
      invariant seen == PathsOf(files[..i])
      invariant DistinctPaths(files[..i])
      invariant forall j :: 0 <= j < i ==> RecordOk(files[j]) && ObjectOk(cfg, bucket, run, n, files[j])
    {
      var item := files[i];
      SeenPath(files, i);
      if !RecordOk(item) || item.path in seen {
        return false;
      }
      seen := seen + {item.path};
      if !ObjectOk(cfg, bucket, run, n, item) {
        return false;
      }
    }
    assert files[..|files|] == files;
    return true;
  }

  function PathsOf(files: seq<FileRecord>): set<Path> { set r | r in files :: r.path }

  lemma SeenPath(files: seq<FileRecord>, i: nat)
    requires i < |files| && DistinctPaths(files[..i])
    ensures PathsOf(files[..i + 1]) == PathsOf(files[..i]) + {files[i].path}
    ensures files[i].path in PathsOf(files[..i]) ==> !DistinctPaths(files)
    ensures files[i].path !in PathsOf(files[..i]) ==> DistinctPaths(files[..i + 1])
  {
    assert files[..i + 1] == files[..i] + [files[i]];
    if files[i].path in PathsOf(files[..i]) {
      var r :| r in files[..i] && r.path == files[i].path;
      var j :| 0 <= j < i && files[j] == r;
    } else {
      forall j | 0 <= j < i
        ensures files[j].path != files[i].path
      {
        assert files[j] in files[..i];
      }
    }
  }

  // ---------------------------------------------------------------- resuming after a squash

  ghost predicate MilestoneOk(cfg: Config, bucket: Bucket, head: Revision, n: nat)
  {
    var key := ManifestKey(cfg, head, n);
    && key in bucket && bucket[key].Doc?
    && Identity(cfg, bucket[key].manifest, head, Selected(n, bucket[key].manifest.revision))
    && ObjectsOk(cfg, bucket, RunKey(cfg, head), n, bucket[key].manifest)
  }

  /** What `_verify_completed_squash` accepts. `sizes` and `rooted` are the file sizes and the downloaded
      inventory of the observed head. */
  ghost predicate ResumeOk(cfg: Config, repo: Repo, bucket: Bucket, args: Args, finalHead: Revision,
                           sizes: map<Path, nat>, rooted: seq<FileRecord>)
    requires ValidArgs(args)
  {
    var head, last := args.expectedHead, args.numbers[|args.numbers| - 1];
    && repo.commits == [Commit(finalHead, SquashTitle(last, head))]
    && repo.tags == [] && repo.branches == ["main"]
    && (forall i :: 0 <= i < |args.numbers| ==> MilestoneOk(cfg, bucket, head, args.numbers[i]))
    && var final := bucket[ManifestKey(cfg, head, last)].manifest;
    && final.revision == head
    && sizes == FileSizes(final.files)
    && rooted == Orders.Sort(final.files, RecordLe)
  }

  /** `_verify_completed_squash`: it only reads, and returns the revisions it found archived. */
  method VerifyCompletedSquash(cfg: Config, repo: Repo, bucket: Bucket, args: Args, finalHead: Revision,
                               sizes: map<Path, nat>, rooted: seq<FileRecord>)
    returns (r: Result<seq<Selected>>)
    requires ValidArgs(args)
    ensures r.Ok? <==> ResumeOk(cfg, repo, bucket, args, finalHead, sizes, rooted)
    ensures r.Ok? ==> |r.value| == |args.numbers| && forall i :: 0 <= i < |args.numbers| ==>
                        r.value[i].n == args.numbers[i] &&
                        Identity(cfg, bucket[ManifestKey(cfg, args.expectedHead, args.numbers[i])].manifest,
                                 args.expectedHead, r.value[i])
  {
    hide RunKey, SquashTitle, ObjectsOk, Identity, FileSizes;
    var head, last := args.expectedHead, args.numbers[|args.numbers| - 1];
    if repo.commits != [Commit(finalHead, SquashTitle(last, head))] {
      return Err("head");
    }
    if repo.tags != [] || repo.branches != ["main"] {
      return Err("refs");
    }
    var archived: seq<Selected> := [];
    var final: Option<Manifest> := None;
    for i := 0 to |args.numbers|
      invariant |archived| == i
      invariant forall k :: 0 <= k < i ==>
                  && MilestoneOk(cfg, bucket, head, args.numbers[k])
                  && archived[k].n == args.numbers[k]
                  && Identity(cfg, bucket[ManifestKey(cfg, head, args.numbers[k])].manifest, head, archived[k])
      invariant i == |args.numbers| ==> final == Some(bucket[ManifestKey(cfg, head, last)].manifest)
    {
      var n := args.numbers[i];
      var key := ManifestKey(cfg, head, n);
      if key !in bucket || !bucket[key].Doc? {
        return Err("missing");
      }
      var m := bucket[key].manifest;
      var verified := VerifyObjects(cfg, bucket, RunKey(cfg, head), n, m);
      if !Identity(cfg, m, head, Selected(n, m.revision)) || !verified {
        return Err("archive");
      }
      archived := archived + [Selected(n, m.revision)];
      if n == last {
        final := Some(m);
      }
    }
    if final.value.revision != head {
      return Err("final");
    }
    if sizes != FileSizes(final.value.files) || rooted != Orders.Sort(final.value.files, RecordLe) {
      return Err("differs");
    }
    return Ok(archived);
  }
}

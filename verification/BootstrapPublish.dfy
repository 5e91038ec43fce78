/** The commit that `scripts/publish_v1_bootstrap.py` prepares: its operations and the checks on its tree. */
module BootstrapPublish {
  import opened Wrappers

  type Path = string

  /** What the hub reports of a file. The digest is the SHA-256 of an LFS file and the blob id of another. */
  datatype FileId = FileId(size: nat, digest: string, lfs: bool)

  type Tree = map<Path, FileId>

  /** A prepared local file, with both digests. */
  datatype LocalFile = LocalFile(size: nat, sha256: string, blobId: string)

  /** A prepared plan: the fenced parent, the commit message, the number before, the metadata files and, for a base
      reset, the tree of the pinned base repository. The last two fields are what downloads from a revision with a given
      tree show: whether its profile is the prepared one, and the files that its weight index names, if it can be
      read. */
  datatype Plan = Plan(
    parent: string, message: string, sourceN: nat, files: map<Path, LocalFile>, base: Option<Tree>,
    hasProfile: Tree -> bool, weightFiles: Tree -> Option<set<Path>>)

  datatype Op = Add(path: Path) | Copy(path: Path) | Delete(path: Path)

  /** A file entry as the hub lists it; `None` for a digest or size that is missing. */
  datatype Sibling = Sibling(name: Path, size: Option<nat>, lfsDigest: Option<string>, blobId: Option<string>)

  predicate Complete(e: Sibling)
  {
    e.size.Some? && if e.lfsDigest.Some? then e.lfsDigest.value != "" else e.blobId.Some? && e.blobId.value != ""
  }

  function IdOf(e: Sibling): FileId
    requires Complete(e)
  {
    FileId(e.size.value, if e.lfsDigest.Some? then e.lfsDigest.value else e.blobId.value, e.lfsDigest.Some?)
  }

  predicate EndsWith(s: string, suffix: string) { |suffix| <= |s| && s[|s| - |suffix|..] == suffix }

  predicate IsModel(tree: Tree)
  {
    && "config.json" in tree && "tokenizer_config.json" in tree && "tokenizer.json" in tree
    && exists p :: p in tree && EndsWith(p, ".safetensors")
  }

  /** `_tree`, with the dictionary it fills. */
  method ReadTree(sha: string, revision: string, siblings: seq<Sibling>) returns (r: Result<Tree>)
    ensures r.Ok? <==> sha == revision && (forall e :: e in siblings ==> Complete(e)) && IsModel(TreeOf(siblings))
    ensures r.Ok? ==> r.value == TreeOf(siblings)
  {
    if sha != revision {
      return Err("revision");
    }
    var tree: Tree := map[];
    for i := 0 to |siblings|
      invariant forall e :: e in siblings[..i] ==> Complete(e)
      invariant tree == TreeOf(siblings[..i])
    {
      assert siblings[..i + 1][..i] == siblings[..i];
      if !Complete(siblings[i]) {
        return Err("metadata");
      }
      tree := tree[siblings[i].name := IdOf(siblings[i])];
    }
    assert siblings[..|siblings|] == siblings;
    if !IsModel(tree) {
      return Err("model");
    }
    return Ok(tree);
  }

  /** The last complete entry under each name. */
  function TreeOf(siblings: seq<Sibling>): Tree
  {
    if siblings == [] then map[] else
    var e := siblings[|siblings| - 1];
    var before := TreeOf(siblings[..|siblings| - 1]);
    if Complete(e) then before[e.name := IdOf(e)] else before
  }

  // ---------------------------------------------------------------- operations

  function Names(plan: Plan): set<Path> { plan.files.Keys }

  /** The tree whose files other than the metadata the commit must end up with. */
  function Wanted(plan: Plan, source: Tree): Tree { if plan.base.Some? then plan.base.value else source }

  /** The base repository must not bring its own metadata files. */
  predicate PlanOk(plan: Plan) { plan.base.Some? ==> plan.base.value.Keys !! Names(plan) }

  /** `_validate_weight_index`. */
  predicate WeightsIndexed(plan: Plan, tree: Tree)
  {
    || "model.safetensors" in tree
    || (&& plan.weightFiles(tree).Some? && plan.weightFiles(tree).value != {}
        && forall p :: p in plan.weightFiles(tree).value ==> EndsWith(p, ".safetensors") && p in tree)
  }

  /** The checks on the trees of the parent and of what the commit is to publish. */
  predicate TreesOk(plan: Plan, source: Tree)
  {
    && plan.hasProfile(source) && IsModel(source) && WeightsIndexed(plan, source)
    && IsModel(Wanted(plan, source)) && WeightsIndexed(plan, Wanted(plan, source))
  }

  function Touches(plan: Plan, source: Tree): set<Op>
  {
    (set p | p in Names(plan) :: Add(p)) +
    (if plan.base.None? then {} else
     (set p | p in plan.base.value :: Copy(p)) +
     (set p | p in source && p !in plan.base.value && p !in Names(plan) :: Delete(p)))
  }

  /** `ops` is the operation list of the plan, in whatever order. */
  ghost predicate IsOperationList(plan: Plan, source: Tree, ops: seq<Op>)
  {
    && (forall i, j :: 0 <= i < j < |ops| ==> ops[i] != ops[j])
    && forall op :: op in ops <==> op in Touches(plan, source)
  }

  /** How the hub reports a prepared file that it keeps in LFS or not. */
  function Uploaded(f: LocalFile, lfs: bool): FileId { FileId(f.size, if lfs then f.sha256 else f.blobId, lfs) }

  /** One operation on a tree. The hub refuses to delete what is not there and to copy what the base lacks. */
  function ApplyOp(plan: Plan, lfs: set<Path>, tree: Tree, op: Op): Option<Tree>
  {
    match op
    case Add(p) => if p in plan.files then Some(tree[p := Uploaded(plan.files[p], p in lfs)]) else None
    case Copy(p) => if plan.base.Some? && p in plan.base.value then Some(tree[p := plan.base.value[p]]) else None
    case Delete(p) => if p in tree then Some(tree - {p}) else None
  }

  function ApplyAll(plan: Plan, lfs: set<Path>, tree: Tree, ops: seq<Op>): Option<Tree>
  {
    if ops == [] then Some(tree) else
    var before := ApplyAll(plan, lfs, tree, ops[..|ops| - 1]);
    if before.None? then None else ApplyOp(plan, lfs, before.value, ops[|ops| - 1])
  }

  /** The expected tree with the two metadata files in place. */
  function Published(plan: Plan, lfs: set<Path>, source: Tree): Tree
  {
    (Wanted(plan, source) - Names(plan)) + map p | p in plan.files :: Uploaded(plan.files[p], p in lfs)
  }

  /** The post-commit comparison: nothing but the metadata differs from the wanted tree, and each metadata file
      is there with the prepared identity. */
  predicate TreeAccepted(plan: Plan, source: Tree, target: Tree)
  {
    && Wanted(plan, source) - Names(plan) == target - Names(plan)
    && forall p :: p in plan.files ==> p in target && target[p] == Uploaded(plan.files[p], target[p].lfs)
  }

  // ---------------------------------------------------------------- results

  predicate DistinctTargets(ops: seq<Op>)
  {
    forall i, j :: 0 <= i < j < |ops| ==> ops[i].path != ops[j].path
  }

  lemma OperationsDoNotOverlap(plan: Plan, source: Tree, ops: seq<Op>)
    requires PlanOk(plan) && IsOperationList(plan, source, ops)
    ensures DistinctTargets(ops)
  {
    forall i, j | 0 <= i < j < |ops|
      ensures ops[i].path != ops[j].path
    {
      assert ops[i] in Touches(plan, source) && ops[j] in Touches(plan, source);
    }
  }

  /** The effect of a list of operations on different paths, path by path. */
  ghost predicate Effect(plan: Plan, lfs: set<Path>, tree: Tree, ops: seq<Op>, result: Tree, p: Path)
  {
    && (Add(p) in ops && p in plan.files ==> p in result && result[p] == Uploaded(plan.files[p], p in lfs))
    && (Copy(p) in ops && plan.base.Some? && p in plan.base.value ==> p in result && result[p] == plan.base.value[p])
    && (Delete(p) in ops ==> p !in result)
    && ((forall op :: op in ops ==> op.path != p) ==>
          (p in result <==> p in tree) && (p in tree ==> result[p] == tree[p]))
  }

  lemma {:induction false} ApplyEffect(plan: Plan, lfs: set<Path>, source: Tree, ops: seq<Op>)
    requires DistinctTargets(ops) && forall op :: op in ops ==> op in Touches(plan, source)
    ensures ApplyAll(plan, lfs, source, ops).Some?
    ensures forall p :: Effect(plan, lfs, source, ops, ApplyAll(plan, lfs, source, ops).value, p)
  {
    if ops == [] {
      assert forall p :: Effect(plan, lfs, source, [], source, p);
    } else {
      hide Touches, Effect, ApplyOp;
      var rest, last := ops[..|ops| - 1], ops[|ops| - 1];
      assert ops == rest + [last] && DistinctTargets(rest);
      ApplyEffect(plan, lfs, source, rest);
      var before := ApplyAll(plan, lfs, source, rest).value;
      assert forall op :: op in rest ==> op.path != last.path;
      assert last in Touches(plan, source);
      LastApplies(plan, lfs, source, rest, last, before);
      var after := ApplyOp(plan, lfs, before, last).value;
      hide DistinctTargets;
      forall p
        ensures Effect(plan, lfs, source, ops, after, p)
      {
        assert Effect(plan, lfs, source, rest, before, p);
        EffectOfOneMore(plan, lfs, source, rest, last, before, p);
      }
    }
  }

  lemma LastApplies(plan: Plan, lfs: set<Path>, source: Tree, rest: seq<Op>, last: Op, before: Tree)
    requires Effect(plan, lfs, source, rest, before, last.path) && last in Touches(plan, source)
    requires forall op :: op in rest ==> op.path != last.path
    ensures ApplyOp(plan, lfs, before, last).Some?
  {
  }

  lemma EffectOfOneMore(plan: Plan, lfs: set<Path>, source: Tree, rest: seq<Op>, last: Op, before: Tree, p: Path)
    requires Effect(plan, lfs, source, rest, before, p) && ApplyOp(plan, lfs, before, last).Some?
    requires forall op :: op in rest ==> op.path != last.path
    ensures Effect(plan, lfs, source, rest + [last], ApplyOp(plan, lfs, before, last).value, p)
  {
    hide Uploaded;
    assert forall op :: op in rest + [last] <==> op in rest || op == last;
  }

  /** Whatever order the operations are applied in and whichever metadata files the hub keeps in LFS, the
      commit has the wanted tree with the metadata in place. */
  lemma AnyOrderPublishes(plan: Plan, lfs: set<Path>, source: Tree, ops: seq<Op>)
    requires PlanOk(plan) && IsOperationList(plan, source, ops)
    ensures ApplyAll(plan, lfs, source, ops) == Some(Published(plan, lfs, source))
  {
    OperationsDoNotOverlap(plan, source, ops);
    ApplyEffect(plan, lfs, source, ops);
    var result := ApplyAll(plan, lfs, source, ops).value;
    forall p
      ensures p in result <==> p in Published(plan, lfs, source)
      ensures p in result ==> result[p] == Published(plan, lfs, source)[p]
    {
      assert Effect(plan, lfs, source, ops, result, p);
      PathCases(plan, source, ops, p);
    }
    assert result == Published(plan, lfs, source);
  }

  lemma PathCases(plan: Plan, source: Tree, ops: seq<Op>, p: Path)
    requires PlanOk(plan) && IsOperationList(plan, source, ops)
    ensures Add(p) in ops <==> p in Names(plan)
    ensures Copy(p) in ops <==> plan.base.Some? && p in plan.base.value
    ensures Delete(p) in ops <==> plan.base.Some? && p in source && p !in plan.base.value && p !in Names(plan)
    ensures (forall op :: op in ops ==> op.path != p) <==> Add(p) !in ops && Copy(p) !in ops && Delete(p) !in ops
  {
  }

  /** The post-commit comparison accepts exactly the trees that a correctly applied commit can have. */
  lemma AcceptedIffPublished(plan: Plan, source: Tree, target: Tree)
    ensures TreeAccepted(plan, source, target) <==> exists lfs :: target == Published(plan, lfs, source)
  {
    if TreeAccepted(plan, source, target) {
      var lfs := set p | p in plan.files && target[p].lfs;
      assert target == Published(plan, lfs, source) by {
        forall p
          ensures p in target <==> p in Published(plan, lfs, source)
          ensures p in target ==> target[p] == Published(plan, lfs, source)[p]
        {
          assert p !in Names(plan) ==> (p in target <==> p in target - Names(plan));
          assert p !in Names(plan) ==> (p in Wanted(plan, source) <==> p in Wanted(plan, source) - Names(plan));
        }
      }
    }
    if lfs :| target == Published(plan, lfs, source) {
      assert Wanted(plan, source) - Names(plan) == target - Names(plan);
    }
  }

  /** A published tree passes the reader's completeness check whenever the wanted tree does. */
  lemma PublishedIsModel(plan: Plan, lfs: set<Path>, source: Tree)
    requires IsModel(Wanted(plan, source))
    ensures IsModel(Published(plan, lfs, source))
  {
    var wanted, published := Wanted(plan, source), Published(plan, lfs, source);
    assert forall p :: p in wanted ==> p in published;
    var p :| p in wanted && EndsWith(p, ".safetensors");
    assert p in published;
  }
}

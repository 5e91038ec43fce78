/** Snapshot inventories of `scripts/archive_finished_hf_run.py` and the two orders it sorts them by: path
    objects compare component by component, path strings character by character. */
module Snapshots {
  import Orders
  import Splitting

  type Path = string
  type Bytes = seq<int>
  type Tree = map<Path, Bytes>

  datatype FileRecord = FileRecord(path: Path, size: nat, sha256: string)

  // ---------------------------------------------------------------- the two orders

  /** The components of a path, character by character. */
  function Components(p: Path): (parts: seq<string>)
    ensures parts != []
  {
    if p == [] then [""]
    else if p[0] == '/' then [""] + Components(p[1..])
    else var rest := Components(p[1..]); [[p[0]] + rest[0]] + rest[1..]
  }

  /** They are `p.split("/")`. */
  lemma ComponentsAreSplit(p: Path)
    ensures Components(p) == Splitting.Split("/", p)
  {
    ComponentsJoin(p);
    Splitting.SplitInvertsJoin("/", Components(p));
  }

  lemma {:induction false} ComponentsJoin(p: Path)
    ensures Splitting.Separated("/", Components(p)) && Splitting.Join("/", Components(p)) == p
  {
    NoSlash(p);
    forall part | part in Components(p)
      ensures !Splitting.Contains("/", part + "/"[..0])
      ensures !Splitting.Contains("/", part)
    {
      SlashFree(part);
      assert part + "/"[..0] == part;
    }
    JoinsBack(p);
  }

  lemma SlashFree(part: string)
    requires '/' !in part
    ensures !Splitting.Contains("/", part)
  {
    forall i: nat | i < |part|
      ensures !Splitting.OccursAt("/", part, i)
    {
      assert part[i..i + 1] == [part[i]] && part[i] in part;
    }
  }

  lemma {:induction false} NoSlash(p: Path)
    ensures forall part :: part in Components(p) ==> '/' !in part
  {
    if p != [] {
      NoSlash(p[1..]);
    }
  }

  lemma JoinCons(part: string, rest: seq<string>)
    requires rest != []
    ensures Splitting.Join("/", [part] + rest) == part + "/" + Splitting.Join("/", rest)
  {
    assert ([part] + rest)[1..] == rest;
  }

  lemma JoinGrows(c: char, parts: seq<string>)
    requires parts != []
    ensures Splitting.Join("/", [[c] + parts[0]] + parts[1..]) == [c] + Splitting.Join("/", parts)
  {
    hide Splitting.Join;
    var rest := parts[1..];
    assert parts == [parts[0]] + rest;
    if rest == [] {
      JoinOne(parts[0]);
      JoinOne([c] + parts[0]);
    } else {
      JoinCons(parts[0], rest);
      JoinCons([c] + parts[0], rest);
      var tail := "/" + Splitting.Join("/", rest);
      assert [c] + parts[0] + "/" + Splitting.Join("/", rest) == [c] + (parts[0] + tail);
      assert parts[0] + "/" + Splitting.Join("/", rest) == parts[0] + tail;
    }
  }

  lemma JoinOne(part: string)
    ensures Splitting.Join("/", [part] + []) == part
  {
  }

  lemma {:induction false} JoinsBack(p: Path)
    ensures Splitting.Join("/", Components(p)) == p
  {
    if p != [] {
      var rest := Components(p[1..]);
      hide Splitting.Join;
      JoinsBack(p[1..]);
      assert p == [p[0]] + p[1..];
      if p[0] == '/' {
        JoinCons("", rest);
      } else {
        JoinGrows(p[0], rest);
      }
    }
  }

  function Codes(p: string): seq<int>
  {
    if p == [] then [] else [p[0] as int] + Codes(p[1..])
  }

  /** The code points of a path with the separator moved in front of every other character. */
  function SlashFirst(p: Path): seq<int>
  {
    if p == [] then [] else [if p[0] == '/' then -1 else p[0] as int] + SlashFirst(p[1..])
  }

  predicate StringLe(p: string, q: string) { Orders.LexLe(Codes(p), Codes(q)) }

  predicate PartsLe(a: seq<string>, b: seq<string>)
  {
    a == [] || (b != [] && if a[0] == b[0] then PartsLe(a[1..], b[1..]) else StringLe(a[0], b[0]))
  }

  /** The order of `sorted(directory.rglob("*"))`. */
  predicate ComponentLe(p: Path, q: Path) { PartsLe(Components(p), Components(q)) }

  /** `p` and `q` agree up to a place where `p` has a separator and `q` a character below it. */
  predicate Inverted(p: Path, q: Path)
  {
    p != [] && q != [] &&
    if p[0] == q[0] then Inverted(p[1..], q[1..]) else p[0] == '/' && q[0] < '/'
  }

  lemma {:induction false} ComponentOrder(p: Path, q: Path)
    ensures ComponentLe(p, q) <==> Orders.LexLe(SlashFirst(p), SlashFirst(q))
  {
    if p != [] && q != [] && p[0] == q[0] {
      ComponentOrder(p[1..], q[1..]);
      var a, b := Components(p[1..]), Components(q[1..]);
      if p[0] == '/' {
        assert Components(p)[1..] == a && Components(q)[1..] == b;
      } else {
        var x, y := [p[0]] + a[0], [p[0]] + b[0];
        assert x[1..] == a[0] && y[1..] == b[0];
        assert Components(p)[1..] == a[1..] && Components(q)[1..] == b[1..];
        assert x == y <==> a[0] == b[0];
      }
    } else if p != [] && q != [] {
      var x, y := Components(p)[0], Components(q)[0];
      assert if p[0] == '/' then x == [] else x[0] == p[0];
      assert if q[0] == '/' then y == [] else y[0] == q[0];
      assert x != y;
    } else if p != [] {
      assert Components(q)[0] == [] && Components(q)[1..] == [];
      if p[0] == '/' {
        assert Components(p)[1..] != [] && !PartsLe(Components(p)[1..], Components(q)[1..]);
      } else {
        assert !StringLe(Components(p)[0], Components(q)[0]);
      }
    } else {
      assert Components(p)[0] == [] && Components(p)[1..] == [];
      assert PartsLe(Components(p)[1..], Components(q)[1..]) && StringLe(Components(p)[0], Components(q)[0]);
    }
  }

  /** The orders disagree about two paths exactly when one of them inverts the other. */
  lemma {:induction false} OrdersDisagree(p: Path, q: Path)
    ensures ComponentLe(p, q) != StringLe(p, q) <==> Inverted(p, q) || Inverted(q, p)
    ensures Inverted(p, q) ==> ComponentLe(p, q) && !ComponentLe(q, p) && !StringLe(p, q)
  {
    ComponentOrder(p, q);
    ComponentOrder(q, p);
    if p != [] && q != [] && p[0] == q[0] {
      ComponentOrder(p[1..], q[1..]);
      ComponentOrder(q[1..], p[1..]);
      OrdersDisagree(p[1..], q[1..]);
    }
  }

  lemma {:induction false} CodesInjective(p: string, q: string)
    requires Codes(p) == Codes(q)
    ensures p == q
  {
    if p != [] && q != [] {
      assert Codes(p)[0] == Codes(q)[0] && Codes(p)[1..] == Codes(q)[1..];
      CodesInjective(p[1..], q[1..]);
      assert p == [p[0]] + p[1..] && q == [q[0]] + q[1..];
    }
  }

  lemma {:induction false} SlashFirstInjective(p: Path, q: Path)
    requires SlashFirst(p) == SlashFirst(q)
    ensures p == q
  {
    if p != [] && q != [] {
      assert SlashFirst(p)[0] == SlashFirst(q)[0] && SlashFirst(p)[1..] == SlashFirst(q)[1..];
      SlashFirstInjective(p[1..], q[1..]);
      assert p == [p[0]] + p[1..] && q == [q[0]] + q[1..];
    }
  }

  lemma StringOrderTotal()
    ensures Orders.TotalPreorder(StringLe)
    ensures forall p, q :: StringLe(p, q) && StringLe(q, p) ==> p == q
  {
    forall p, q
      ensures StringLe(p, q) || StringLe(q, p)
      ensures StringLe(p, q) && StringLe(q, p) ==> p == q
    {
      Orders.LexTotal(Codes(p), Codes(q));
      if StringLe(p, q) && StringLe(q, p) {
        Orders.LexAntisymmetric(Codes(p), Codes(q));
        CodesInjective(p, q);
      }
    }
    forall p, q, r | StringLe(p, q) && StringLe(q, r)
      ensures StringLe(p, r)
    {
      Orders.LexTransitive(Codes(p), Codes(q), Codes(r));
    }
  }

  lemma ComponentOrderTotal()
    ensures Orders.TotalPreorder(ComponentLe)
    ensures forall p, q :: ComponentLe(p, q) && ComponentLe(q, p) ==> p == q
  {
    forall p, q
      ensures ComponentLe(p, q) || ComponentLe(q, p)
      ensures ComponentLe(p, q) && ComponentLe(q, p) ==> p == q
    {
      ComponentOrder(p, q);
      ComponentOrder(q, p);
      Orders.LexTotal(SlashFirst(p), SlashFirst(q));
      if ComponentLe(p, q) && ComponentLe(q, p) {
        Orders.LexAntisymmetric(SlashFirst(p), SlashFirst(q));
        SlashFirstInjective(p, q);
      }
    }
    forall p, q, r | ComponentLe(p, q) && ComponentLe(q, r)
      ensures ComponentLe(p, r)
    {
      ComponentOrder(p, q);
      ComponentOrder(q, r);
      ComponentOrder(p, r);
      Orders.LexTransitive(SlashFirst(p), SlashFirst(q), SlashFirst(r));
    }
  }

  // ---------------------------------------------------------------- inventories

  /** `_snapshot_files` leaves out everything below a `.cache` component. */
  predicate Cached(p: Path) { ".cache" in Components(p) }

  function SnapshotPaths(tree: Tree): set<Path> { set p | p in tree && !Cached(p) }

  ghost function Enumerate(s: set<Path>): seq<Path>
  {
    if s == {} then [] else
    var p :| p in s;
    [p] + Enumerate(s - {p})
  }

  ghost function Ordered(s: set<Path>): seq<Path> { Orders.Sort(Enumerate(s), ComponentLe) }

  function Record(sha: Bytes -> string, p: Path, b: Bytes): FileRecord { FileRecord(p, |b|, sha(b)) }

  /** `_inventory`: one record per snapshot file, in path order. */
  ghost function Inventory(sha: Bytes -> string, tree: Tree): (files: seq<FileRecord>)
  {
    Records(sha, tree, OrderedPaths(tree))
  }

  ghost function OrderedPaths(tree: Tree): (s: seq<Path>)
    ensures forall p :: p in s <==> p in SnapshotPaths(tree)
    ensures forall i, j :: 0 <= i < j < |s| ==> s[i] != s[j] && ComponentLe(s[i], s[j])
  {
    OrderedFacts(SnapshotPaths(tree));
    Ordered(SnapshotPaths(tree))
  }

  ghost function Records(sha: Bytes -> string, tree: Tree, s: seq<Path>): seq<FileRecord>
    requires forall p :: p in s ==> p in tree
  {
    seq(|s|, i requires 0 <= i < |s| => assert s[i] in s; Record(sha, s[i], tree[s[i]]))
  }

  lemma {:induction false} EnumerateFacts(s: set<Path>)
    ensures forall p :: p in Enumerate(s) <==> p in s
    ensures multiset(Enumerate(s)) == multiset(s)
  {
    if s != {} {
      var p :| p in s && Enumerate(s) == [p] + Enumerate(s - {p});
      EnumerateFacts(s - {p});
      assert s == {p} + (s - {p});
    }
  }

  lemma OrderedFacts(s: set<Path>)
    ensures forall p :: p in Ordered(s) <==> p in s
    ensures forall i, j :: 0 <= i < j < |Ordered(s)| ==>
              Ordered(s)[i] != Ordered(s)[j] && ComponentLe(Ordered(s)[i], Ordered(s)[j])
  {
    var o := Ordered(s);
    EnumerateFacts(s);
    ComponentOrderTotal();
    Orders.SortPermutes(Enumerate(s), ComponentLe);
    Orders.SortSorts(Enumerate(s), ComponentLe);
    forall i, j | 0 <= i < j < |o|
      ensures o[i] != o[j]
    {
      OnceOnly(o, i, j);
    }
  }

  lemma OnceOnly(o: seq<Path>, i: nat, j: nat)
    requires i < j < |o| && multiset(o)[o[i]] <= 1
    ensures o[i] != o[j]
  {
    assert o == o[..j] + [o[j]] + o[j + 1..];
    assert o[i] in o[..j];
  }

  predicate RecordLe(a: FileRecord, b: FileRecord) { StringLe(a.path, b.path) }

  /** No two archived paths of the tree are ordered differently as paths and as strings. A caller can decide
      this by looking at the file names. */
  predicate OrdersAgree(tree: Tree)
  {
    forall p, q :: p in SnapshotPaths(tree) && q in SnapshotPaths(tree) ==> !Inverted(p, q)
  }

  /** Sorting an inventory by path string leaves it as it is exactly when the two orders agree on the tree. */
  lemma StringSortKeepsInventory(sha: Bytes -> string, tree: Tree)
    ensures Orders.Sort(Inventory(sha, tree), RecordLe) == Inventory(sha, tree) <==> OrdersAgree(tree)
  {
    var files := Inventory(sha, tree);
    RecordOrderTotal();
    Orders.SortSorts(files, RecordLe);
    SortedIffAgree(sha, tree);
    if Orders.Sorted(files, RecordLe) {
      Orders.SortFixesSorted(files, RecordLe);
    }
  }

  lemma SortedIffAgree(sha: Bytes -> string, tree: Tree)
    ensures Orders.Sorted(Inventory(sha, tree), RecordLe) <==> OrdersAgree(tree)
  {
    var files, paths := Inventory(sha, tree), OrderedPaths(tree);
    assert forall p :: p in paths <==> p in SnapshotPaths(tree);
    hide StringLe, ComponentLe, Inverted, SnapshotPaths, OrderedPaths;
    if OrdersAgree(tree) {
      forall i, j | 0 <= i < j < |files|
        ensures RecordLe(files[i], files[j])
      {
        assert paths[i] in paths && paths[j] in paths;
        OrdersDisagree(paths[i], paths[j]);
      }
    } else {
      var p, q :| p in SnapshotPaths(tree) && q in SnapshotPaths(tree) && Inverted(p, q);
      assert p in paths && q in paths;
      var i :| 0 <= i < |paths| && paths[i] == p;
      var j :| 0 <= j < |paths| && paths[j] == q;
      OrdersDisagree(p, q);
      assert files[i].path == p && files[j].path == q;
      assert i != j;
      assert i < j;
    }
  }

  lemma RecordOrderTotal()
    ensures Orders.TotalPreorder(RecordLe)
  {
    StringOrderTotal();
  }

  /** The orders disagree on every tree with a file below `dir` and a file whose name goes on from `dir` with a
      dot, such as `tokenizer/vocab.json` beside `tokenizer.json`. */
  lemma DottedSiblingInverts(tree: Tree, dir: Path, below: Path, suffix: Path)
    requires dir + "/" + below in SnapshotPaths(tree) && dir + "." + suffix in SnapshotPaths(tree)
    ensures !OrdersAgree(tree)
  {
    InvertedAfter(dir, "/" + below, "." + suffix);
    assert dir + ("/" + below) == dir + "/" + below && dir + ("." + suffix) == dir + "." + suffix;
  }

  lemma {:induction false} InvertedAfter(prefix: string, p: Path, q: Path)
    ensures Inverted(prefix + p, prefix + q) <==> Inverted(p, q)
  {
    if prefix == [] {
      assert prefix + p == p && prefix + q == q;
    } else {
      InvertedAfter(prefix[1..], p, q);
      assert (prefix + p)[1..] == prefix[1..] + p && (prefix + q)[1..] == prefix[1..] + q;
    }
  }

  // ---------------------------------------------------------------- sizes

  function TreeSizes(tree: Tree): map<Path, nat> { map p | p in tree :: |tree[p]| }

  /** `{item["path"]: item["size"] for item in files}`. */
  function FileSizes(files: seq<FileRecord>): map<Path, nat>
  {
    if files == [] then map[] else
    FileSizes(files[..|files| - 1])[files[|files| - 1].path := files[|files| - 1].size]
  }

  function SizesAt(tree: Tree, s: seq<Path>): map<Path, nat>
    requires forall p :: p in s ==> p in tree
  {
    map p | p in s :: |tree[p]|
  }

  lemma {:induction false} FileSizesOf(sha: Bytes -> string, tree: Tree, s: seq<Path>)
    requires forall p :: p in s ==> p in tree
    ensures FileSizes(Records(sha, tree, s)) == SizesAt(tree, s)
  {
    if s != [] {
      var rest, last := s[..|s| - 1], s[|s| - 1];
      FileSizesOf(sha, tree, rest);
      assert Records(sha, tree, s)[..|s| - 1] == Records(sha, tree, rest);
      assert Records(sha, tree, s)[|s| - 1] == Record(sha, last, tree[last]);
      hide Records, FileSizes;
      assert s == rest + [last];
      assert SizesAt(tree, s) == SizesAt(tree, rest)[last := |tree[last]|];
    }
  }

  /** An inventory describes its complete source tree exactly when nothing in the tree was left out. */
  lemma InventoryComplete(sha: Bytes -> string, tree: Tree)
    ensures FileSizes(Inventory(sha, tree)) == TreeSizes(tree) <==> forall p :: p in tree ==> !Cached(p)
  {
    var s := OrderedPaths(tree);
    FileSizesOf(sha, tree, s);
    var sizes := SizesAt(tree, s);
    assert forall p :: p in s <==> p in SnapshotPaths(tree);
    if forall p :: p in tree ==> !Cached(p) {
      assert sizes == TreeSizes(tree);
    } else {
      var p :| p in tree && Cached(p);
      assert p in TreeSizes(tree) && p !in sizes;
    }
  }
}

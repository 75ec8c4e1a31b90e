/**
 * The grouping `RichFormatter.print_file_tree` performs before rendering:
 * files at the root go directly under the tree, nested files under one node
 * per directory. The Rich `Tree` is modelled as its list of children; the
 * `dirs` dictionary maps a directory to the position of its node, so adding
 * to `dirs[dir_path]` adds to that node in the tree.
 */
module FileTree {
  import opened Wrappers
  import opened PyBuiltins
  import opened FileIcons

  /** A file entry: its icon and its name. */
  datatype Leaf = Leaf(icon: string, name: string)

  /** A child of the tree: a root-level file, or a directory node with its files. */
  datatype Child = FileChild(leaf: Leaf) | DirChild(path: string, leaves: seq<Leaf>)

  /** The tree under construction: its children and the `dirs` dictionary. */
  datatype TreeState = TreeState(children: seq<Child>, dirs: map<string, nat>)

  /** `file_path.replace("\\", "/")` */
  function Normalize(path: string): (r: string)
    ensures |r| == |path|
    ensures '\\' !in r
  {
    seq(|path|, k requires 0 <= k < |path| => if path[k] == '\\' then '/' else path[k])
  }

  /** `file_path.replace("\\", "/").split("/")` */
  function PathParts(path: string): seq<string> {
    Split(Normalize(path), '/')
  }

  /** `"/".join(parts[:-1])` */
  function DirOf(parts: seq<string>): string
    requires |parts| > 1
  {
    Join(parts[..|parts| - 1], '/')
  }

  function LeafFor(name: string): Leaf {
    Leaf(FileIcon(name), name)
  }

  /** Every entry of `dirs` names a directory node at its position, and every directory node is in `dirs`. */
  predicate Consistent(t: TreeState) {
    && (forall d :: d in t.dirs ==> DirAt(t, d))
    && (forall i :: 0 <= i < |t.children| && t.children[i].DirChild? ==> Registered(t, i))
  }

  predicate DirAt(t: TreeState, d: string) {
    d in t.dirs && t.dirs[d] < |t.children| && t.children[t.dirs[d]].DirChild? && t.children[t.dirs[d]].path == d
  }

  predicate Registered(t: TreeState, i: nat)
    requires i < |t.children| && t.children[i].DirChild?
  {
    t.children[i].path in t.dirs && t.dirs[t.children[i].path] == i
  }

  /** `dirs[dir_path].add(...)` */
  function AddLeaf(t: TreeState, dir: string, leaf: Leaf): (r: TreeState)
    requires Consistent(t) && dir in t.dirs
    ensures Consistent(r)
  {
    assert DirAt(t, dir);
    var i := t.dirs[dir];
    var r := t.(children := t.children[i := DirChild(dir, t.children[i].leaves + [leaf])]);
    assert forall d :: d in r.dirs ==> DirAt(r, d) by {
      forall d | d in r.dirs ensures DirAt(r, d) { assert DirAt(t, d); }
    }
    assert forall j :: 0 <= j < |r.children| && r.children[j].DirChild? ==> Registered(r, j) by {
      forall j | 0 <= j < |r.children| && r.children[j].DirChild? ensures Registered(r, j) {
        if j != i { assert Registered(t, j); }
      }
    }
    r
  }

  /** `dirs[dir_path] = tree.add(...)` for a directory not seen before. */
  function AddDir(t: TreeState, dir: string): (r: TreeState)
    requires Consistent(t) && dir !in t.dirs
    ensures Consistent(r) && dir in r.dirs
  {
    var r := TreeState(t.children + [DirChild(dir, [])], t.dirs[dir := |t.children|]);
    assert forall d :: d in r.dirs ==> DirAt(r, d) by {
      forall d | d in r.dirs ensures DirAt(r, d) { if d != dir { assert DirAt(t, d); } }
    }
    assert forall j :: 0 <= j < |r.children| && r.children[j].DirChild? ==> Registered(r, j) by {
      forall j | 0 <= j < |r.children| && r.children[j].DirChild? ensures Registered(r, j) {
        if j < |t.children| {
          assert Registered(t, j);
          assert t.children[j].path != dir;
        }
      }
    }
    r
  }

  /** One iteration of the loop of `print_file_tree`. */
  function AddFile(t: TreeState, file: string): (r: TreeState)
    requires Consistent(t)
    ensures Consistent(r)
  {
    var parts := PathParts(file);
    if |parts| == 1 then
      assert forall j :: 0 <= j < |t.children| && t.children[j].DirChild? ==> Registered(t, j);
      TreeState(t.children + [FileChild(LeafFor(parts[0]))], t.dirs)
    else
      var dir := DirOf(parts);
      var t1 := if dir in t.dirs then t else AddDir(t, dir);
      AddLeaf(t1, dir, LeafFor(parts[|parts| - 1]))
  }

  /** The tree after the files `files`, in order. */
  function TreeOf(files: seq<string>): (t: TreeState)
    ensures Consistent(t)
  {
    if |files| == 0 then TreeState([], map[]) else AddFile(TreeOf(files[..|files| - 1]), files[|files| - 1])
  }

  /** `print_file_tree` up to the rendering: nothing for no files, else the grouped children. */
  method BuildFileTree(files: seq<string>) returns (tree: Option<seq<Child>>)
    ensures files == [] ==> tree == None
    ensures files != [] ==> tree == Some(TreeOf(files).children)
  {
    if |files| == 0 {
      return None;
    }
    var children: seq<Child> := [];
    var dirs: map<string, nat> := map[];
    for i := 0 to |files|
      invariant TreeState(children, dirs) == TreeOf(files[..i])
    {
      TreeOfPrefix(files, i);
      children, dirs := PlaceFile(children, dirs, files[i]);
    }
    assert files[..|files|] == files;
    return Some(children);
  }

  /** The tree of one more file is the tree of the ones before with that file added. */
  lemma TreeOfPrefix(files: seq<string>, i: nat)
    requires i < |files|
    ensures TreeOf(files[..i + 1]) == AddFile(TreeOf(files[..i]), files[i])
  {
    assert files[..i + 1][..i] == files[..i];
  }

  /** The body of the loop of `print_file_tree`: one file placed in the tree. */
  method PlaceFile(children: seq<Child>, dirs: map<string, nat>, file: string)
    returns (children': seq<Child>, dirs': map<string, nat>)
    requires Consistent(TreeState(children, dirs))
    ensures TreeState(children', dirs') == AddFile(TreeState(children, dirs), file)
  {
    children', dirs' := children, dirs;
    var parts := PathParts(file);
    if |parts| == 1 {
      children' := children' + [FileChild(LeafFor(parts[0]))];
    } else {
      var dirPath := Join(parts[..|parts| - 1], '/');
      if dirPath !in dirs' {
        dirs' := dirs'[dirPath := |children'|];
        children' := children' + [DirChild(dirPath, [])];
      }
      assert DirAt(TreeState(children', dirs'), dirPath);
      var node := dirs'[dirPath];
      children' := children'[node := DirChild(dirPath, children'[node].leaves + [LeafFor(parts[|parts| - 1])])];
    }
  }

  // ---------------------------------------------------------------------------
  // Properties
  // ---------------------------------------------------------------------------

  /** A directory has one node: two directory children with the same path are the same child. */
  lemma OneNodePerDirectory(files: seq<string>, i: nat, j: nat)
    requires i < |TreeOf(files).children| && j < |TreeOf(files).children|
    requires TreeOf(files).children[i].DirChild? && TreeOf(files).children[j].DirChild?
    requires TreeOf(files).children[i].path == TreeOf(files).children[j].path
    ensures i == j
  {
    var t := TreeOf(files);
    assert Registered(t, i) && Registered(t, j);
  }

  /** A path without a separator becomes a file directly under the root. */
  lemma RootLevelFile(t: TreeState, file: string)
    requires Consistent(t) && '/' !in Normalize(file)
    ensures AddFile(t, file) == TreeState(t.children + [FileChild(LeafFor(Normalize(file)))], t.dirs)
  {
    SplitAbsent(Normalize(file), '/');
  }

  /** A nested path goes under the node of its directory; a new node is made only for a new directory. */
  lemma NestedFile(t: TreeState, file: string)
    requires Consistent(t) && |PathParts(file)| > 1
    ensures var dir := DirOf(PathParts(file)); var r := AddFile(t, file);
      && r.dirs == t.dirs[dir := if dir in t.dirs then t.dirs[dir] else |t.children|]
      && |r.children| == |t.children| + (if dir in t.dirs then 0 else 1)
      && DirAt(r, dir)
      && r.children[r.dirs[dir]].leaves[|r.children[r.dirs[dir]].leaves| - 1] == LeafFor(PathParts(file)[|PathParts(file)| - 1])
  {
    var dir := DirOf(PathParts(file));
    if dir in t.dirs {
      assert t.dirs[dir := t.dirs[dir]] == t.dirs;
    }
  }

  /** The leaf paths of a child: the file itself, or `dir/name` for each file of a directory. */
  function ChildPaths(c: Child): seq<string> {
    match c
    case FileChild(l) => [l.name]
    case DirChild(p, ls) => seq(|ls|, k requires 0 <= k < |ls| => p + "/" + ls[k].name)
  }

  /** All leaf paths of the tree, child by child. */
  function Flatten(cs: seq<Child>): seq<string> {
    if |cs| == 0 then [] else Flatten(cs[..|cs| - 1]) + ChildPaths(cs[|cs| - 1])
  }

  /** The normalised input paths. */
  function NormalizedAll(files: seq<string>): seq<string> {
    seq(|files|, k requires 0 <= k < |files| => Normalize(files[k]))
  }

  /** Every input file is exactly one leaf of the tree: the leaf paths are the input paths, counted with repetition. */
  lemma {:induction false} EveryFileOnce(files: seq<string>)
    ensures multiset(Flatten(TreeOf(files).children)) == multiset(NormalizedAll(files))
  {
    if |files| > 0 {
      var init, last := files[..|files| - 1], files[|files| - 1];
      assert NormalizedAll(files) == NormalizedAll(init) + [Normalize(last)] by {
        NormalizedSnoc(init, last);
        assert init + [last] == files;
      }
      EveryFileOnce(init);
      AddFileLeaves(TreeOf(init), last);
    }
  }

  lemma NormalizedSnoc(files: seq<string>, file: string)
    ensures NormalizedAll(files + [file]) == NormalizedAll(files) + [Normalize(file)]
  {
  }

  /** One file adds exactly its own path to the leaves. */
  lemma AddFileLeaves(t: TreeState, file: string)
    requires Consistent(t)
    ensures multiset(Flatten(AddFile(t, file).children)) == multiset(Flatten(t.children)) + multiset{Normalize(file)}
  {
    if |PathParts(file)| == 1 {
      RootFileLeaves(t, file);
    } else {
      NestedFileLeaves(t, file);
    }
  }

  lemma RootFileLeaves(t: TreeState, file: string)
    requires Consistent(t) && |PathParts(file)| == 1
    ensures multiset(Flatten(AddFile(t, file).children)) == multiset(Flatten(t.children)) + multiset{Normalize(file)}
  {
    var parts := PathParts(file);
    var c := FileChild(LeafFor(parts[0]));
    assert parts[0] == Normalize(file) by {
      JoinSplit(Normalize(file), '/');
    }
    assert Flatten(AddFile(t, file).children) == Flatten(t.children) + [parts[0]] by {
      FlattenConcat(t.children, [c]);
      assert Flatten([c]) == [parts[0]];
    }
  }

  lemma NestedFileLeaves(t: TreeState, file: string)
    requires Consistent(t) && |PathParts(file)| > 1
    ensures multiset(Flatten(AddFile(t, file).children)) == multiset(Flatten(t.children)) + multiset{Normalize(file)}
  {
    var parts := PathParts(file);
    var dir := DirOf(parts);
    var t1 := if dir in t.dirs then t else AddDir(t, dir);
    assert multiset(Flatten(t1.children)) == multiset(Flatten(t.children)) by {
      if dir !in t.dirs {
        FlattenConcat(t.children, [DirChild(dir, [])]);
        assert Flatten([DirChild(dir, [])]) == [];
      }
    }
    var leaf := LeafFor(parts[|parts| - 1]);
    assert AddFile(t, file) == AddLeaf(t1, dir, leaf);
    AddLeafLeaves(t1, dir, leaf);
    assert dir + "/" + leaf.name == Normalize(file) by {
      LastJoined(parts, '/');
      JoinSplit(Normalize(file), '/');
    }
  }

  /** The directory and the last component join back to the whole path. */
  lemma LastJoined(parts: seq<string>, sep: char)
    requires |parts| > 1
    ensures Join(parts[..|parts| - 1], sep) + [sep] + parts[|parts| - 1] == Join(parts, sep)
  {
    JoinConcat(parts[..|parts| - 1], [parts[|parts| - 1]], sep);
    assert parts[..|parts| - 1] + [parts[|parts| - 1]] == parts;
  }

  /** Adding a file to a directory node adds `dir/name` to the leaves. */
  lemma AddLeafLeaves(t: TreeState, dir: string, leaf: Leaf)
    requires Consistent(t) && dir in t.dirs
    ensures multiset(Flatten(AddLeaf(t, dir, leaf).children)) == multiset(Flatten(t.children)) + multiset{dir + "/" + leaf.name}
  {
    assert DirAt(t, dir);
    var i := t.dirs[dir];
    var c := t.children[i];
    var x := dir + "/" + leaf.name;
    var updated := DirChild(dir, c.leaves + [leaf]);
    assert ChildPaths(updated) == ChildPaths(c) + [x];
    assert AddLeaf(t, dir, leaf).children == t.children[i := updated];
    FlattenUpdate(t.children, i, updated, [x]);
  }

  /** Replacing a child by one with extra leaf paths adds exactly those paths. */
  lemma FlattenUpdate(cs: seq<Child>, i: nat, c: Child, extra: seq<string>)
    requires i < |cs| && ChildPaths(c) == ChildPaths(cs[i]) + extra
    ensures multiset(Flatten(cs[i := c])) == multiset(Flatten(cs)) + multiset(extra)
  {
    var x, y := Flatten(cs[..i]), Flatten(cs[i + 1..]);
    var p := ChildPaths(cs[i]);
    assert Flatten(cs) == x + p + y by {
      FlattenSplit(cs, i);
    }
    assert Flatten(cs[i := c]) == x + (p + extra) + y by {
      FlattenSplit(cs[i := c], i);
      assert cs[i := c][..i] == cs[..i];
      assert cs[i := c][i + 1..] == cs[i + 1..];
    }
    MultisetOfThree(x, p, extra, y);
  }

  lemma MultisetOfThree(x: seq<string>, p: seq<string>, extra: seq<string>, y: seq<string>)
    ensures multiset(x + (p + extra) + y) == multiset(x + p + y) + multiset(extra)
  {
    calc {
      multiset(x + (p + extra) + y);
      multiset(x) + (multiset(p) + multiset(extra)) + multiset(y);
      multiset(x) + multiset(p) + multiset(y) + multiset(extra);
      multiset(x + p + y) + multiset(extra);
    }
  }

  /** The leaves of a child list around position `i`. */
  lemma FlattenSplit(cs: seq<Child>, i: nat)
    requires i < |cs|
    ensures Flatten(cs) == Flatten(cs[..i]) + ChildPaths(cs[i]) + Flatten(cs[i + 1..])
  {
    var a, b := cs[..i], cs[i + 1..];
    Around(cs, i);
    FlattenConcat(a + [cs[i]], b);
    assert Flatten(a + [cs[i]]) == Flatten(a) + ChildPaths(cs[i]) by {
      DropAppended(a, [cs[i]]);
    }
  }

  lemma {:induction false} FlattenConcat(a: seq<Child>, b: seq<Child>)
    ensures Flatten(a + b) == Flatten(a) + Flatten(b)
    decreases |b|
  {
    if |b| == 0 {
      assert a + b == a;
    } else {
      var init := b[..|b| - 1];
      assert Flatten(a + b) == Flatten(a + init) + ChildPaths(b[|b| - 1]) by {
        assert (a + b)[..|a + b| - 1] == a + init;
      }
      FlattenConcat(a, init);
    }
  }
}

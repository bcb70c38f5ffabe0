/** The tree an image stands for, one write as one update of it, and whole runs of writes. */
module Runs {
  import opened Wrappers
  import opened Bytes
  import opened Names
  import opened DirEntries
  import opened Chains
  import opened Geometry
  import opened Directories
  import opened DirUpdates
  import opened Paths
  import opened Engine
  import opened Tree
  import opened Volume
  import opened Lookup
  import opened Writes
  import opened Outcomes
  import opened Frame
  import opened Theorems
  import opened Promises

  datatype Node = Sub(dir: nat) | File(bytes: seq<byte>)

  /** Directories, each a map from upper-cased names to sub-directories and file contents. */
  type FileTree = map<nat, map<string, Node>>

  ghost function NodeOf(v: Vol, cs: nat, e: DirEntry): Node
    requires Sized(v, cs)
  {
    if e.IsDir() then Sub(e.firstCluster) else File(FileBytes(v, cs, e))
  }

  ghost function NodesOf(v: Vol, cs: nat, names: map<string, DirEntry>): (m: map<string, Node>)
    requires Sized(v, cs)
    ensures forall n :: n in m <==> n in names && !IsDotName(n)
  {
    map n | n in names && !IsDotName(n) :: NodeOf(v, cs, names[n])
  }

  /** The tree behind an image; the self and parent entries are not part of it. */
  ghost function TreeOf(g: Geo, d: seq<byte>, dirs: set<nat>): (t: FileTree)
    requires Layout(g, |d|)
    ensures t.Keys == dirs
  {
    ViewSized(g, d);
    map c | c in dirs :: NodesOf(View(g, d), g.clusterSize, CatalogOf(View(g, d), dirs)[c])
  }

  // ---------- operations on trees alone ----------

  ghost function TreeDir(t: FileTree, dir: nat, parts: seq<string>): Option<nat>
    decreases |parts|
  {
    if parts == [] then Some(dir)
    else if dir in t && Upper(parts[0]) in t[dir] && t[dir][Upper(parts[0])].Sub?
    then TreeDir(t, t[dir][Upper(parts[0])].dir, parts[1..])
    else None
  }

  ghost function TreeFind(t: FileTree, root: nat, parts: seq<string>): Option<Node>
    requires parts != []
  {
    match TreeDir(t, root, parts[..|parts| - 1])
    case None => None
    case Some(dir) => if dir in t then Get(t[dir], Upper(parts[|parts| - 1])) else None
  }

  /** Storing a file under `name` in the directory at `parent`. */
  ghost function TreePut(t: FileTree, root: nat, parent: seq<string>, name: string, content: seq<byte>): FileTree {
    match TreeDir(t, root, parent)
    case None => t
    case Some(dir) => if dir in t then t[dir := t[dir][name := File(content)]] else t
  }

  // ---------- the image refines the tree ----------

  lemma TreeNode(g: Geo, d: seq<byte>, dirs: set<nat>, dir: nat, name: string)
    requires Layout(g, |d|) && !IsDotName(name)
    ensures Sized(View(g, d), g.clusterSize)
    ensures dir in TreeOf(g, d, dirs) && name in TreeOf(g, d, dirs)[dir] <==> HasEntry(Before(g, d, dirs), dir, name)
    ensures HasEntry(Before(g, d, dirs), dir, name) ==>
              TreeOf(g, d, dirs)[dir][name] == NodeOf(View(g, d), g.clusterSize, Before(g, d, dirs)[dir][name])
  {
    ViewSized(g, d);
  }

  lemma {:induction false} TreeDirIs(g: Geo, d: seq<byte>, dirs: set<nat>, dir: nat, parts: seq<string>)
    requires Layout(g, |d|) && NoDots(parts)
    ensures TreeDir(TreeOf(g, d, dirs), dir, parts) == DirOf(Before(g, d, dirs), dir, parts)
    decreases |parts|
  {
    if parts != [] {
      assert !IsDotName(Upper(parts[0]));
      TreeNode(g, d, dirs, dir, Upper(parts[0]));
      if IsSubdir(Before(g, d, dirs), dir, Upper(parts[0])) {
        assert NoDots(parts[1..]);
        TreeDirIs(g, d, dirs, Before(g, d, dirs)[dir][Upper(parts[0])].firstCluster, parts[1..]);
      }
    }
  }

  /** The tree finds a node exactly where the catalog resolves to an entry. */
  lemma ResolvedNode(g: Geo, d: seq<byte>, dirs: set<nat>, parts: seq<string>)
    requires WellFormed(g, d, dirs) && parts != [] && NoDots(parts)
    ensures Sized(View(g, d), g.clusterSize)
    ensures var found := Resolve(Before(g, d, dirs), g.root, parts);
            && TreeFind(TreeOf(g, d, dirs), g.root, parts)
               == (match found case None => None case Some(e) => Some(NodeOf(View(g, d), g.clusterSize, e)))
            && (found.Some? && found.value.IsFile() ==> FileOk(View(g, d).fat, g.clusterSize, found.value))
  {
    var cat := Before(g, d, dirs);
    var init, key := parts[..|parts| - 1], Upper(parts[|parts| - 1]);
    ViewSized(g, d);
    assert NoDots(init) && !IsDotName(key);
    TreeDirIs(g, d, dirs, g.root, init);
    var here := DirOf(cat, g.root, init);
    if here.Some? {
      TreeNode(g, d, dirs, here.value, key);
      assert here.value in cat && key in cat[here.value] ==> HasEntry(cat, here.value, key);
    }
  }

  /** Reading any path of the image is looking it up in the tree. */
  lemma ReadIsTreeFind(g: Geo, d: seq<byte>, dirs: set<nat>, q: string)
    requires WellFormed(g, d, dirs) && Absolute(q) && NoDots(Components(q))
    requires Passable(Before(g, d, dirs), g.root, Components(q))
    ensures ReadFileByPath(g, d, q)
            == if Components(q) == [] then Ok(None)
               else match TreeFind(TreeOf(g, d, dirs), g.root, Components(q))
                    case None => Ok(None)
                    case Some(Sub(_)) => Err(NotAFile)
                    case Some(File(bytes)) => Ok(Some(bytes))
  {
    WellFormedIsNavigable(g, d, dirs);
    OpenPathView(g, d, dirs, q);
    if Components(q) != [] {
      ResolvedNode(g, d, dirs, Components(q));
      match Resolve(Before(g, d, dirs), g.root, Components(q))
      case None =>
      case Some(e) => ReadNode(g, d, q, e);
    }
  }

  lemma ReadNode(g: Geo, d: seq<byte>, q: string, e: DirEntry)
    requires Layout(g, |d|) && OpenPath(g, d, q) == Ok(Some(e))
    requires e.IsFile() ==> FileOk(View(g, d).fat, g.clusterSize, e)
    ensures Sized(View(g, d), g.clusterSize)
    ensures ReadFileByPath(g, d, q)
            == match NodeOf(View(g, d), g.clusterSize, e)
               case Sub(_) => Err(NotAFile)
               case File(bytes) => Ok(Some(bytes))
  {
    ViewSized(g, d);
    if e.IsFile() { ReadFileView(g, d, e); }
  }

  // ---------- one write is one update ----------

  /** Outside the touched names, the tree does not change, whatever the write answers. */
  lemma TreeElsewhere(g: Geo, d: seq<byte>, d': seq<byte>, dirs: set<nat>, dir: nat, names: set<string>, c: nat,
                      n: string)
    requires WellFormed(g, d, dirs) && |d'| == |d| && c in dirs && (c != dir || n !in names)
    requires Preserved(View(g, d), View(g, d'), Before(g, d, dirs), Before(g, d', dirs), dir, names)
    ensures Get(TreeOf(g, d', dirs)[c], n) == Get(TreeOf(g, d, dirs)[c], n)
  {
    if !IsDotName(n) {
      var cat, cat' := Before(g, d, dirs), Before(g, d', dirs);
      TreeNode(g, d, dirs, c, n);
      TreeNode(g, d', dirs, c, n);
      assert Get(cat'[c], n) == Get(cat[c], n);
      if HasEntry(cat, c, n) && cat[c][n].IsFile() {
        assert IsClaim(cat, FileClaim(c, n));
        OtherFileSame(g, d, d', dirs, dir, names, FileClaim(c, n));
      }
    }
  }

  lemma TreeKept(g: Geo, d: seq<byte>, d': seq<byte>, dirs: set<nat>, dir: nat, names: set<string>)
    requires WellFormed(g, d, dirs) && |d'| == |d|
    requires Preserved(View(g, d), View(g, d'), Before(g, d, dirs), Before(g, d', dirs), dir, names)
    ensures SameOutside(TreeOf(g, d, dirs), TreeOf(g, d', dirs), dir, names)
  {
    hide TreeOf, Preserved, View, CatalogOf, TreeOk, Orderly, Layout;
    var t, t' := TreeOf(g, d, dirs), TreeOf(g, d', dirs);
    forall c: nat, n: string {:trigger Get(t'[c], n)} | c in dirs && (c != dir || n !in names)
      ensures Get(t'[c], n) == Get(t[c], n)
    {
      TreeElsewhere(g, d, d', dirs, dir, names, c, n);
    }
  }

  /** The trees differ at `names` of `dir` at most. */
  ghost predicate SameOutside(t: FileTree, t': FileTree, dir: nat, names: set<string>) {
    && t'.Keys == t.Keys
    && forall c: nat, n: string {:trigger Get(t'[c], n)} :: c in t && (c != dir || n !in names) ==>
         Get(t'[c], n) == Get(t[c], n)
  }

  lemma TreeFromPoints(t: FileTree, t': FileTree, dir: nat, names: map<string, Node>)
    requires t'.Keys == t.Keys && dir in t
    requires forall c, n :: c in t ==> Get(t'[c], n) == if c == dir then Get(names, n) else Get(t[c], n)
    ensures t' == t[dir := names]
  {
    forall c | c in t ensures t'[c] == if c == dir then names else t[c] {
      SameMap(t'[c], if c == dir then names else t[c]);
    }
  }

  lemma TreeWithPut(t: FileTree, t': FileTree, dir: nat, name: string, node: Node)
    requires SameOutside(t, t', dir, {name}) && dir in t && Get(t'[dir], name) == Some(node)
    ensures t' == t[dir := t[dir][name := node]]
  {
    forall c, n | c in t
      ensures Get(t'[c], n) == if c == dir then Get(t[dir][name := node], n) else Get(t[c], n)
    {
      assert c != dir || n != name ==> Get(t'[c], n) == Get(t[c], n);
    }
    TreeFromPoints(t, t', dir, t[dir][name := node]);
  }

  lemma TreeWithout(t: FileTree, t': FileTree, dir: nat, names: set<string>)
    requires SameOutside(t, t', dir, names) && dir in t && forall n :: n in names ==> n !in t'[dir]
    ensures t' == t[dir := t[dir] - names]
  {
    forall c, n | c in t ensures Get(t'[c], n) == if c == dir then Get(t[dir] - names, n) else Get(t[c], n) {
      assert c != dir || n !in names ==> Get(t'[c], n) == Get(t[c], n);
    }
    TreeFromPoints(t, t', dir, t[dir] - names);
  }

  lemma SameMap<V>(a: map<string, V>, b: map<string, V>)
    requires forall n :: Get(a, n) == Get(b, n)
    ensures a == b
  {
    forall n ensures n in a <==> n in b {
      assert Get(a, n) == Get(b, n);
    }
    forall n | n in a ensures a[n] == b[n] {
      assert Get(a, n) == Get(b, n);
    }
  }

  /** The written name holds the content. */
  lemma WrittenNode(g: Geo, d: seq<byte>, dirs: set<nat>, parent: nat, raw: RawName, content: seq<byte>)
    requires Enters(g, d, dirs, parent, raw, content) && Fits(g, content)
    ensures var d' := WriteInDir(g, d, parent, raw, content).disk;
            |d'| == |d| && Get(TreeOf(g, d', dirs)[parent], Decode(raw)) == Some(File(content))
  {
    CleanIsNotDot(raw);
    SuccessCatalog(g, d, dirs, parent, raw, content);
    SuccessContent(g, d, dirs, parent, raw, content);
    TreeNode(g, WriteInDir(g, d, parent, raw, content).disk, dirs, parent, Decode(raw));
  }

  /** A successful write stores the content under one name and changes nothing else. */
  lemma WriteIsPut(g: Geo, d: seq<byte>, dirs: set<nat>, parent: nat, raw: RawName, content: seq<byte>)
    requires Enters(g, d, dirs, parent, raw, content) && Fits(g, content)
    ensures var t, t' := TreeOf(g, d, dirs), TreeOf(g, WriteInDir(g, d, parent, raw, content).disk, dirs);
            t' == t[parent := t[parent][Decode(raw) := File(content)]]
  {
    var name := Decode(raw);
    var d' := WriteInDir(g, d, parent, raw, content).disk;
    WriteFrame(g, d, dirs, parent, raw, content);
    WrittenNode(g, d, dirs, parent, raw, content);
    TreeKept(g, d, d', dirs, parent, {name});
    hide TreeOf, View, CatalogOf, Decode, WriteInDir, Preserved, SameOutside;
    TreeWithPut(TreeOf(g, d, dirs), TreeOf(g, d', dirs), parent, name, File(content));
  }

  /** A successful write under a name that starts with NUL stores nothing; it drops the names it hides. */
  lemma WriteIsCut(g: Geo, d: seq<byte>, dirs: set<nat>, parent: nat, raw: RawName, content: seq<byte>)
    requires Succeeds(g, d, dirs, parent, raw, content) && raw[0] == END_MARK
    ensures var t, t' := TreeOf(g, d, dirs), TreeOf(g, WriteInDir(g, d, parent, raw, content).disk, dirs);
            t' == t[parent := t[parent] - HiddenNames(DirGrid(View(g, d), parent), raw)]
  {
    var hidden := HiddenNames(DirGrid(View(g, d), parent), raw);
    var d' := WriteInDir(g, d, parent, raw, content).disk;
    WriteFrame(g, d, dirs, parent, raw, content);
    TreeKept(g, d, d', dirs, parent, hidden);
    SuccessCatalog(g, d, dirs, parent, raw, content);
    forall n | n in hidden ensures n !in TreeOf(g, d', dirs)[parent] {
      if !IsDotName(n) { TreeNode(g, d', dirs, parent, n); }
    }
    hide TreeOf, View, CatalogOf, WriteInDir, Preserved, SameOutside;
    TreeWithout(TreeOf(g, d, dirs), TreeOf(g, d', dirs), parent, hidden);
  }

  /** The write has clusters enough, or nothing to give back first. */
  ghost predicate KeepsOld(g: Geo, d: seq<byte>, dirs: set<nat>, parent: nat, raw: RawName, content: seq<byte>)
    requires WellFormed(g, d, dirs) && parent in dirs
  {
    var name := OldName(g, d, parent, raw);
    || IsSubdir(Before(g, d, dirs), parent, name)
    || Enough(g, d, dirs, parent, name, content)
    || Freed(g, d, dirs, parent, name) == []
  }

  /** A refused write that does not lose the old file leaves the tree as it was. */
  lemma RefusedKeepsTree(g: Geo, d: seq<byte>, dirs: set<nat>, parent: nat, raw: RawName, content: seq<byte>)
    requires Writable(g, d, dirs, parent, raw) && WriteInDir(g, d, parent, raw, content).result.Err?
    requires KeepsOld(g, d, dirs, parent, raw, content)
    ensures TreeOf(g, WriteInDir(g, d, parent, raw, content).disk, dirs) == TreeOf(g, d, dirs)
  {
    var name := OldName(g, d, parent, raw);
    if IsSubdir(Before(g, d, dirs), parent, name) {
      WriteToSubdir(g, d, dirs, parent, raw, content);
    } else {
      WriteSucceedsIff(g, d, dirs, parent, raw, content);
      if !Enough(g, d, dirs, parent, name, content) {
        RefusalTouchesNothing(g, d, dirs, parent, raw, content);
      } else {
        FullDirectoryIs(g, d, dirs, parent, raw, content);
        LeakKeepsNodes(g, d, dirs, parent, raw, content);
      }
    }
  }

  lemma LeakKeepsNodes(g: Geo, d: seq<byte>, dirs: set<nat>, parent: nat, raw: RawName, content: seq<byte>)
    requires Writable(g, d, dirs, parent, raw) && !HasRoom(g, d, parent, raw)
    requires Enough(g, d, dirs, parent, OldName(g, d, parent, raw), content)
    ensures TreeOf(g, StoredDisk(g, d, dirs, parent, OldName(g, d, parent, raw), content), dirs) == TreeOf(g, d, dirs)
  {
    NoRoomNoName(g, d, dirs, parent, raw);
    OldNameIsNotDot(g, d, parent, raw);
    LeakState(g, d, dirs, parent, OldName(g, d, parent, raw), content, {});
    SameNodes(g, d, StoredDisk(g, d, dirs, parent, OldName(g, d, parent, raw), content), dirs, parent);
  }

  lemma SameNodes(g: Geo, d: seq<byte>, d': seq<byte>, dirs: set<nat>, dir: nat)
    requires WellFormed(g, d, dirs) && |d'| == |d| && dir in dirs
    requires Preserved(View(g, d), View(g, d'), Before(g, d, dirs), Before(g, d', dirs), dir, {})
    ensures TreeOf(g, d', dirs) == TreeOf(g, d, dirs)
  {
    TreeKept(g, d, d', dirs, dir, {});
    TreeWithout(TreeOf(g, d, dirs), TreeOf(g, d', dirs), dir, {});
    SameAgain(TreeOf(g, d, dirs), dir);
  }

  lemma SameAgain(t: FileTree, dir: nat)
    requires dir in t
    ensures t[dir := t[dir] - {}] == t
  {
    assert t[dir] - {} == t[dir];
  }

  // ---------- runs ----------

  datatype Op = Write(path: string, content: seq<byte>)

  function Run(g: Geo, d: seq<byte>, ops: seq<Op>): seq<byte>
    requires g.clusterSize > 0
    decreases |ops|
  {
    if ops == [] then d else Run(g, WriteFile(g, d, ops[0].path, ops[0].content).disk, ops[1..])
  }

  /** What the call does to the tree: one put when it answers Ok, nothing otherwise. */
  ghost function Applied(g: Geo, t: FileTree, op: Op, r: Result<()>): FileTree {
    if r.Ok? && SplitParent(op.path).Ok? && Encode(SplitParent(op.path).value.1).Ok?
    then TreePut(t, g.root, Components(SplitParent(op.path).value.0),
                 Decode(Encode(SplitParent(op.path).value.1).value), op.content)
    else t
  }

  /** The same run on the tree alone, given the answers of the calls. */
  ghost function Replay(g: Geo, t: FileTree, d: seq<byte>, ops: seq<Op>): FileTree
    requires g.clusterSize > 0
    decreases |ops|
  {
    if ops == [] then t else
      var o := WriteFile(g, d, ops[0].path, ops[0].content);
      Replay(g, Applied(g, t, ops[0], o.result), o.disk, ops[1..])
  }

  // ---------- what a run relies on ----------

  /** The spelling alone does not make the call refuse. */
  predicate Spelled(path: string) {
    && Absolute(path) && path != "/" && SplitParent(path).Ok? && Encode(SplitParent(path).value.1).Ok?
    && (SplitParent(path).value.0 == "/" || Components(SplitParent(path).value.0) != [])
  }

  /** A call that the first image of a run admits: its parent path leads to a directory there, its name does not start
      with NUL, no volume label of that directory has its raw name, and its content fits. */
  ghost predicate Admits(g: Geo, first: seq<byte>, dirs: set<nat>, op: Op)
    requires Layout(g, |first|)
  {
    && Fits(g, op.content)
    && (Spelled(op.path) ==>
          var (parent, name) := SplitParent(op.path).value;
          var at := DirOf(Before(g, first, dirs), g.root, Components(parent));
          && NoDots(Components(parent)) && at.Some?
          && Encode(name).value[0] != END_MARK
          && NoLabel(DirSlots(View(g, first), at.value), Encode(name).value))
  }

  ghost predicate AdmitsAll(g: Geo, first: seq<byte>, dirs: set<nat>, ops: seq<Op>)
    requires Layout(g, |first|)
  {
    forall k :: 0 <= k < |ops| ==> Admits(g, first, dirs, ops[k])
  }

  /** The call does not give a file's clusters back and then find too few. */
  ghost predicate LosesNothing(g: Geo, d: seq<byte>, dirs: set<nat>, op: Op) {
    forall parent: nat, raw: RawName :: Targets(g, d, dirs, op.path, parent, raw) ==>
      KeepsOld(g, d, dirs, parent, raw, op.content)
  }

  ghost predicate RunLosesNothing(g: Geo, d: seq<byte>, dirs: set<nat>, ops: seq<Op>)
    requires g.clusterSize > 0
    decreases |ops|
  {
    ops != [] ==>
      && LosesNothing(g, d, dirs, ops[0])
      && RunLosesNothing(g, WriteFile(g, d, ops[0].path, ops[0].content).disk, dirs, ops[1..])
  }

  ghost predicate SameSubdirs(cat: Catalog, cat': Catalog) {
    forall dir, name :: (IsSubdir(cat', dir, name) <==> IsSubdir(cat, dir, name))
                        && (IsSubdir(cat, dir, name) ==> cat'[dir][name].firstCluster == cat[dir][name].firstCluster)
  }

  /** The later image has the first one's sub-directories, and no volume label that the first one does not have. */
  ghost predicate SameDirs(g: Geo, first: seq<byte>, d: seq<byte>, dirs: set<nat>) {
    && Layout(g, |first|) && |d| == |first|
    && SameSubdirs(Before(g, first, dirs), Before(g, d, dirs))
    && forall c, raw :: c in dirs && NoLabel(DirSlots(View(g, first), c), raw) ==> NoLabel(DirSlots(View(g, d), c), raw)
  }

  lemma {:induction false} DirOfKept(cat: Catalog, cat': Catalog, dir: nat, parts: seq<string>)
    requires SameSubdirs(cat, cat')
    ensures DirOf(cat', dir, parts) == DirOf(cat, dir, parts)
    decreases |parts|
  {
    if parts != [] && IsSubdir(cat, dir, Upper(parts[0])) {
      DirOfKept(cat, cat', cat[dir][Upper(parts[0])].firstCluster, parts[1..]);
    }
  }

  lemma SameDirsReach(g: Geo, first: seq<byte>, d: seq<byte>, dirs: set<nat>, parts: seq<string>)
    requires SameDirs(g, first, d, dirs)
    ensures DirOf(Before(g, d, dirs), g.root, parts) == DirOf(Before(g, first, dirs), g.root, parts)
  {
    DirOfKept(Before(g, first, dirs), Before(g, d, dirs), g.root, parts);
  }

  /** A directory that a path of the tree leads to is one of its directories. */
  lemma {:induction false} DirOfInside(fat: Fat, cs: nat, root: nat, cat: Catalog, dir: nat, parts: seq<string>)
    requires TreeOk(fat, cs, root, cat) && dir in cat && DirOf(cat, dir, parts).Some?
    ensures DirOf(cat, dir, parts).value in cat
    decreases |parts|
  {
    if parts != [] {
      assert HasEntry(cat, dir, Upper(parts[0]));
      DirOfInside(fat, cs, root, cat, cat[dir][Upper(parts[0])].firstCluster, parts[1..]);
    }
  }

  lemma {:induction false} DirOfIsPassable(cat: Catalog, dir: nat, parts: seq<string>)
    requires DirOf(cat, dir, parts).Some?
    ensures Passable(cat, dir, parts)
    decreases |parts|
  {
    if parts != [] { DirOfIsPassable(cat, cat[dir][Upper(parts[0])].firstCluster, parts[1..]); }
  }

  // ---------- one step ----------

  /** The target of an admitted call on a later image. */
  ghost predicate Plain(g: Geo, d: seq<byte>, dirs: set<nat>, path: string, parent: nat, raw: RawName) {
    && Targets(g, d, dirs, path, parent, raw) && raw[0] != END_MARK
    && !LabelHit(DirGrid(View(g, d), parent), raw)
  }

  /** A path that leads to a directory of the catalog is a parent. */
  lemma ParentOfDir(cat: Catalog, root: nat, parent: string)
    requires (parent == "/" || Components(parent) != []) && DirOf(cat, root, Components(parent)).Some?
    ensures ParentIn(cat, root, parent) == Ok(DirOf(cat, root, Components(parent)).value)
  {
    if parent == "/" {
      SlashHasNoComponents();
    } else {
      DirOfEnd(cat, root, Components(parent));
    }
  }

  lemma AdmittedParent(g: Geo, d: seq<byte>, dirs: set<nat>, parent: string)
    requires Navigable(g, d, dirs) && Absolute(parent) && NoDots(Components(parent))
    requires parent == "/" || Components(parent) != []
    requires DirOf(Before(g, d, dirs), g.root, Components(parent)).Some?
    ensures ParentCluster(g, d, parent) == Ok(DirOf(Before(g, d, dirs), g.root, Components(parent)).value)
  {
    DirOfIsPassable(Before(g, d, dirs), g.root, Components(parent));
    hide ParentCluster, ParentIn, DirOf, Passable, NoDots, Components, View;
    ParentClusterView(g, d, dirs, parent);
    ParentOfDir(Before(g, d, dirs), g.root, parent);
  }

  lemma UnspelledRefused(g: Geo, d: seq<byte>, path: string, content: seq<byte>)
    requires g.clusterSize > 0 && !Spelled(path)
    ensures WriteFile(g, d, path, content).result.Err? && WriteFile(g, d, path, content).disk == d
  {
    if Absolute(path) && path != "/" && SplitParent(path).Ok? {
      ParentIsAbsolute(path);
    }
  }

  /** On every later image an admitted call has its target, or is refused by its spelling. */
  lemma AdmittedTargets(g: Geo, first: seq<byte>, d: seq<byte>, dirs: set<nat>, op: Op)
    requires SameDirs(g, first, d, dirs) && WellFormed(g, d, dirs) && Admits(g, first, dirs, op) && Spelled(op.path)
    ensures ParentCluster(g, d, SplitParent(op.path).value.0).Ok?
    ensures Plain(g, d, dirs, op.path, ParentCluster(g, d, SplitParent(op.path).value.0).value,
                  Encode(SplitParent(op.path).value.1).value)
  {
    var (pp, name) := SplitParent(op.path).value;
    var parts, cat := Components(pp), Before(g, d, dirs);
    DirOfKept(Before(g, first, dirs), cat, g.root, parts);
    DirOfIsPassable(cat, g.root, parts);
    DirOfInside(View(g, d).fat, g.clusterSize, g.root, cat, g.root, parts);
    ParentIsAbsolute(op.path);
    WellFormedIsNavigable(g, d, dirs);
    AdmittedParent(g, d, dirs, pp);
    ReadyTargets(g, d, dirs, op.path);
    NoLabelNoHit(DirGrid(View(g, d), DirOf(cat, g.root, parts).value), Encode(name).value);
  }

  lemma AppliedAt(g: Geo, d: seq<byte>, dirs: set<nat>, path: string, content: seq<byte>, parent: nat, raw: RawName)
    requires Targets(g, d, dirs, path, parent, raw)
    ensures var t := TreeOf(g, d, dirs);
            && parent in t
            && Applied(g, t, Write(path, content), Ok(())) == t[parent := t[parent][Decode(raw) := File(content)]]
  {
    TreeDirIs(g, d, dirs, g.root, Components(SplitParent(path).value.0));
    AppliedIs(g, TreeOf(g, d, dirs), path, content, parent, raw);
  }

  lemma AppliedIs(g: Geo, t: FileTree, path: string, content: seq<byte>, parent: nat, raw: RawName)
    requires SplitParent(path).Ok? && Encode(SplitParent(path).value.1) == Ok(raw)
    requires TreeDir(t, g.root, Components(SplitParent(path).value.0)) == Some(parent) && parent in t
    ensures Applied(g, t, Write(path, content), Ok(())) == t[parent := t[parent][Decode(raw) := File(content)]]
  {
    hide SplitParent, Encode, Components, TreeDir, Decode;
  }

  lemma PlainTree(g: Geo, d: seq<byte>, dirs: set<nat>, path: string, content: seq<byte>, parent: nat, raw: RawName)
    requires Plain(g, d, dirs, path, parent, raw) && Fits(g, content) && KeepsOld(g, d, dirs, parent, raw, content)
    ensures var o := WriteFile(g, d, path, content);
            && Layout(g, |o.disk|)
            && TreeOf(g, o.disk, dirs) == Applied(g, TreeOf(g, d, dirs), Write(path, content), o.result)
  {
    TargetedWrite(g, d, dirs, path, parent, raw, content);
    TargetSucceeds(g, d, dirs, path, parent, raw, content);
    if WriteFile(g, d, path, content).result.Ok? {
      AppliedAt(g, d, dirs, path, content, parent, raw);
      WriteIsPut(g, d, dirs, parent, raw, content);
    } else {
      RefusedKeepsTree(g, d, dirs, parent, raw, content);
    }
  }

  lemma PlainVolume(g: Geo, d: seq<byte>, dirs: set<nat>, path: string, content: seq<byte>, parent: nat, raw: RawName)
    requires Plain(g, d, dirs, path, parent, raw) && Fits(g, content) && KeepsOld(g, d, dirs, parent, raw, content)
    ensures var o := WriteFile(g, d, path, content);
            && WellFormed(g, o.disk, dirs) && HeaderKept(g, d, o.disk)
            && (UniqueNames(View(g, d), dirs) ==> UniqueNames(View(g, o.disk), dirs))
  {
    TargetedWrite(g, d, dirs, path, parent, raw, content);
    FitsNeeded(g, content);
    WellFormedIff(g, d, dirs, parent, raw, content);
    WriteFrame(g, d, dirs, parent, raw, content);
    if UniqueNames(View(g, d), dirs) { WriteKeepsUnique(g, d, dirs, parent, raw, content); }
  }

  /** It makes and removes no sub-directory entry, and makes no volume label. */
  lemma PlainDirs(g: Geo, first: seq<byte>, d: seq<byte>, dirs: set<nat>, parent: nat, raw: RawName, content: seq<byte>)
    requires SameDirs(g, first, d, dirs) && Writable(g, d, dirs, parent, raw) && raw[0] != END_MARK
    requires !LabelHit(DirGrid(View(g, d), parent), raw)
    ensures SameDirs(g, first, WriteInDir(g, d, parent, raw, content).disk, dirs)
  {
    if Succeeds(g, d, dirs, parent, raw, content) {
      SuccessKeepsSubdirs(g, d, dirs, parent, raw, content);
      forall c, other: RawName | c in dirs && NoLabel(DirSlots(View(g, d), c), other)
        ensures NoLabel(DirSlots(View(g, WriteInDir(g, d, parent, raw, content).disk), c), other)
      {
        SuccessMakesNoLabel(g, d, dirs, parent, raw, content, c, other);
      }
    } else {
      RefusedCatalog(g, d, dirs, parent, raw, content);
    }
  }

  lemma SuccessKeepsSubdirs(g: Geo, d: seq<byte>, dirs: set<nat>, parent: nat, raw: RawName, content: seq<byte>)
    requires Enters(g, d, dirs, parent, raw, content) && !LabelHit(DirGrid(View(g, d), parent), raw)
    ensures var d' := WriteInDir(g, d, parent, raw, content).disk;
            |d'| == |d| && SameSubdirs(Before(g, d, dirs), Before(g, d', dirs))
  {
    SuccessCatalog(g, d, dirs, parent, raw, content);
    EnterFileKeepsSubdirs(Before(g, d, dirs), parent, Decode(raw),
                          NewEntry(raw, UsedFor(g, d, dirs, parent, raw, content), content));
  }

  lemma EnterFileKeepsSubdirs(cat: Catalog, dir: nat, name: string, e: DirEntry)
    requires dir in cat && !IsSubdir(cat, dir, name) && e.IsFile()
    ensures SameSubdirs(cat, Enter(cat, dir, name, e))
  {
    assert Enter(cat, dir, name, e)[dir][name] == e;
  }

  lemma SuccessMakesNoLabel(g: Geo, d: seq<byte>, dirs: set<nat>, parent: nat, raw: RawName, content: seq<byte>, c: nat,
                            other: RawName)
    requires Enters(g, d, dirs, parent, raw, content) && c in dirs && NoLabel(DirSlots(View(g, d), c), other)
    ensures NoLabel(DirSlots(View(g, WriteInDir(g, d, parent, raw, content).disk), c), other)
  {
    var used := UsedFor(g, d, dirs, parent, raw, content);
    SuccessGrids(g, d, dirs, parent, raw, content, c);
    if c == parent {
      WriteInDirIs(g, d, dirs, parent, raw, content);
      NewSlotCarries(raw, used, content);
      NewGridFacts(g, d, dirs, parent, raw, content);
      UpdateKeepsNoLabel(DirGrid(View(g, d), parent), raw, NewSlot(raw, used, content), NewEntry(raw, used, content),
                         other);
    }
  }

  /** What one step of a run keeps, given the image it starts from. */
  ghost predicate StepOk(g: Geo, first: seq<byte>, d: seq<byte>, dirs: set<nat>, op: Op)
    requires g.clusterSize > 0 && Layout(g, |d|)
  {
    var o := WriteFile(g, d, op.path, op.content);
    && WellFormed(g, o.disk, dirs) && HeaderKept(g, d, o.disk) && SameDirs(g, first, o.disk, dirs)
    && TreeOf(g, o.disk, dirs) == Applied(g, TreeOf(g, d, dirs), op, o.result)
    && (UniqueNames(View(g, d), dirs) ==> UniqueNames(View(g, o.disk), dirs))
  }

  lemma PlainStep(g: Geo, first: seq<byte>, d: seq<byte>, dirs: set<nat>, path: string, content: seq<byte>, parent: nat,
                  raw: RawName)
    requires SameDirs(g, first, d, dirs) && Plain(g, d, dirs, path, parent, raw)
    requires Fits(g, content) && KeepsOld(g, d, dirs, parent, raw, content)
    ensures g.clusterSize > 0 && StepOk(g, first, d, dirs, Write(path, content))
  {
    PlainVolume(g, d, dirs, path, content, parent, raw);
    PlainTree(g, d, dirs, path, content, parent, raw);
    PlainDirs(g, first, d, dirs, parent, raw, content);
    TargetedWrite(g, d, dirs, path, parent, raw, content);
    hide SameDirs, Plain, WellFormed, TreeOf, Applied, UniqueNames, View, HeaderKept, WriteFile, WriteInDir;
  }

  lemma UnspelledStep(g: Geo, first: seq<byte>, d: seq<byte>, dirs: set<nat>, op: Op)
    requires SameDirs(g, first, d, dirs) && WellFormed(g, d, dirs) && !Spelled(op.path)
    ensures g.clusterSize > 0 && StepOk(g, first, d, dirs, op)
  {
    UnspelledRefused(g, d, op.path, op.content);
    HeaderKeptRefl(g, d);
    RefusedApplied(g, TreeOf(g, d, dirs), op, WriteFile(g, d, op.path, op.content).result);
    hide Spelled, SameDirs, WriteFile, TreeOf, UniqueNames, View, TreeOk, Orderly, HeaderKept, Applied, CatalogOf;
  }

  lemma RefusedApplied(g: Geo, t: FileTree, op: Op, r: Result<()>)
    requires r.Err?
    ensures Applied(g, t, op, r) == t
  {
  }

  lemma TargetKeepsOld(g: Geo, d: seq<byte>, dirs: set<nat>, op: Op, parent: nat, raw: RawName)
    requires LosesNothing(g, d, dirs, op) && Targets(g, d, dirs, op.path, parent, raw)
    ensures KeepsOld(g, d, dirs, parent, raw, op.content)
  {
  }

  /** One admitted call that loses no file: the volume stays well-formed, and the tree takes one update or none. */
  lemma AdmittedStep(g: Geo, first: seq<byte>, d: seq<byte>, dirs: set<nat>, op: Op)
    requires SameDirs(g, first, d, dirs) && WellFormed(g, d, dirs) && Admits(g, first, dirs, op)
    requires LosesNothing(g, d, dirs, op)
    ensures g.clusterSize > 0 && StepOk(g, first, d, dirs, op)
  {
    hide SameDirs, WellFormed, StepOk, Targets, LosesNothing, KeepsOld, Fits;
    if Spelled(op.path) {
      AdmittedTargets(g, first, d, dirs, op);
      var (pp, name) := SplitParent(op.path).value;
      var parent, raw := ParentCluster(g, d, pp).value, Encode(name).value;
      TargetKeepsOld(g, d, dirs, op, parent, raw);
      PlainStep(g, first, d, dirs, op.path, op.content, parent, raw);
    } else {
      UnspelledStep(g, first, d, dirs, op);
    }
  }

  // ---------- whole runs ----------

  lemma {:induction false} RunFrom(g: Geo, first: seq<byte>, d: seq<byte>, dirs: set<nat>, ops: seq<Op>)
    requires SameDirs(g, first, d, dirs) && WellFormed(g, d, dirs)
    requires AdmitsAll(g, first, dirs, ops) && RunLosesNothing(g, d, dirs, ops)
    ensures var d' := Run(g, d, ops);
            && WellFormed(g, d', dirs)
            && HeaderKept(g, d, d')
            && SameDirs(g, first, d', dirs)
            && TreeOf(g, d', dirs) == Replay(g, TreeOf(g, d, dirs), d, ops)
            && (UniqueNames(View(g, d), dirs) ==> UniqueNames(View(g, d'), dirs))
    decreases |ops|
  {
    if ops != [] {
      var d1 := WriteFile(g, d, ops[0].path, ops[0].content).disk;
      assert Admits(g, first, dirs, ops[0]);
      AdmittedStep(g, first, d, dirs, ops[0]);
      assert AdmitsAll(g, first, dirs, ops[1..]);
      hide SameDirs, WellFormed, AdmitsAll, Admits, LosesNothing, Applied, UniqueNames, View, TreeOf, WriteFile,
        HeaderKept;
      RunFrom(g, first, d1, dirs, ops[1..]);
      HeaderKeptTrans(g, d, d1, Run(g, d1, ops[1..]));
    }
  }

  /** A run is judged by its first image: if that is well-formed and admits every call, and no overwrite loses its file,
      then the volume, its header and its table copies stay good, names stay unique if they were, and the image always
      stands for the tree that the successful calls build. */
  lemma RunRefinesTree(g: Geo, d: seq<byte>, dirs: set<nat>, ops: seq<Op>)
    requires WellFormed(g, d, dirs) && AdmitsAll(g, d, dirs, ops) && RunLosesNothing(g, d, dirs, ops)
    ensures var d' := Run(g, d, ops);
            && WellFormed(g, d', dirs)
            && HeaderKept(g, d, d')
            && TreeOf(g, d', dirs) == Replay(g, TreeOf(g, d, dirs), d, ops)
            && (UniqueNames(View(g, d), dirs) ==> UniqueNames(View(g, d'), dirs))
  {
    RunFrom(g, d, d, dirs, ops);
  }

  // ---------- room for a whole run ----------

  /** The clusters that all contents of a run need together. */
  function NeededInAll(g: Geo, ops: seq<Op>): nat
    decreases |ops|
  {
    if ops == [] then 0 else Needed(g, ops[0].content) + NeededInAll(g, ops[1..])
  }

  /** A call takes no more clusters than its content needs. */
  lemma CallTakes(g: Geo, d: seq<byte>, dirs: set<nat>, parent: nat, raw: RawName, content: seq<byte>)
    requires Writable(g, d, dirs, parent, raw) && FreeCount(View(g, d).fat) >= Needed(g, content)
    ensures KeepsOld(g, d, dirs, parent, raw, content)
    ensures |WriteInDir(g, d, parent, raw, content).disk| == |d|
    ensures FreeCount(View(g, WriteInDir(g, d, parent, raw, content).disk).fat) + Needed(g, content)
            >= FreeCount(View(g, d).fat)
  {
    if IsSubdir(Before(g, d, dirs), parent, OldName(g, d, parent, raw)) {
      WriteToSubdir(g, d, dirs, parent, raw, content);
    } else if HasRoom(g, d, parent, raw) {
      Conservation(g, d, dirs, parent, raw, content);
    } else {
      NoRoomNoName(g, d, dirs, parent, raw);
      FullDirectory(g, d, dirs, parent, raw, content);
    }
  }

  lemma StepTakes(g: Geo, first: seq<byte>, d: seq<byte>, dirs: set<nat>, op: Op)
    requires SameDirs(g, first, d, dirs) && WellFormed(g, d, dirs) && Admits(g, first, dirs, op)
    requires FreeCount(View(g, d).fat) >= Needed(g, op.content)
    ensures g.clusterSize > 0 && LosesNothing(g, d, dirs, op)
    ensures |WriteFile(g, d, op.path, op.content).disk| == |d|
    ensures FreeCount(View(g, WriteFile(g, d, op.path, op.content).disk).fat) + Needed(g, op.content)
            >= FreeCount(View(g, d).fat)
  {
    var path, content := op.path, op.content;
    forall parent: nat, raw: RawName | Targets(g, d, dirs, path, parent, raw)
      ensures KeepsOld(g, d, dirs, parent, raw, content)
    {
      CallTakes(g, d, dirs, parent, raw, content);
    }
    if Spelled(path) {
      AdmittedTargets(g, first, d, dirs, op);
      var parent, raw := ParentCluster(g, d, SplitParent(path).value.0).value, Encode(SplitParent(path).value.1).value;
      TargetedWrite(g, d, dirs, path, parent, raw, content);
      CallTakes(g, d, dirs, parent, raw, content);
    } else {
      UnspelledRefused(g, d, path, content);
    }
  }

  lemma {:induction false} RoomFrom(g: Geo, first: seq<byte>, d: seq<byte>, dirs: set<nat>, ops: seq<Op>)
    requires SameDirs(g, first, d, dirs) && WellFormed(g, d, dirs) && AdmitsAll(g, first, dirs, ops)
    requires NeededInAll(g, ops) <= FreeCount(View(g, d).fat)
    ensures g.clusterSize > 0 && RunLosesNothing(g, d, dirs, ops)
    decreases |ops|
  {
    if ops != [] {
      assert Admits(g, first, dirs, ops[0]);
      StepTakes(g, first, d, dirs, ops[0]);
      StepKeepsImage(g, first, d, dirs, ops[0]);
      assert AdmitsAll(g, first, dirs, ops[1..]);
      hide SameDirs, WellFormed, AdmitsAll, Admits, LosesNothing, View, WriteFile, Needed;
      RoomFrom(g, first, WriteFile(g, d, ops[0].path, ops[0].content).disk, dirs, ops[1..]);
    }
  }

  lemma StepKeepsImage(g: Geo, first: seq<byte>, d: seq<byte>, dirs: set<nat>, op: Op)
    requires SameDirs(g, first, d, dirs) && WellFormed(g, d, dirs) && Admits(g, first, dirs, op)
    requires LosesNothing(g, d, dirs, op)
    ensures g.clusterSize > 0
    ensures var d' := WriteFile(g, d, op.path, op.content).disk;
            WellFormed(g, d', dirs) && SameDirs(g, first, d', dirs)
  {
    AdmittedStep(g, first, d, dirs, op);
  }

  /** When all contents together fit the free clusters of the first image, no call of the run loses a file, so the whole
      run is judged by the first image alone. */
  lemma RunWithRoom(g: Geo, d: seq<byte>, dirs: set<nat>, ops: seq<Op>)
    requires WellFormed(g, d, dirs) && AdmitsAll(g, d, dirs, ops)
    requires NeededInAll(g, ops) <= FreeCount(View(g, d).fat)
    ensures var d' := Run(g, d, ops);
            && WellFormed(g, d', dirs)
            && HeaderKept(g, d, d')
            && TreeOf(g, d', dirs) == Replay(g, TreeOf(g, d, dirs), d, ops)
            && (UniqueNames(View(g, d), dirs) ==> UniqueNames(View(g, d'), dirs))
  {
    RoomFrom(g, d, d, dirs, ops);
    RunRefinesTree(g, d, dirs, ops);
  }
}

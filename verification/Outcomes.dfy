/** The volume after a write, whatever the write answered. */
module Outcomes {
  import opened Wrappers
  import opened Bytes
  import opened Names
  import opened DirEntries
  import opened Chains
  import opened Geometry
  import opened Clusters
  import opened Directories
  import opened DirUpdates
  import opened Engine
  import opened Refinement
  import opened Tree
  import opened Volume
  import opened Writes

  // ---------- file contents ----------

  ghost predicate Sized(v: Vol, cs: nat) {
    |v.data| == |v.fat| && forall c :: FIRST_CLUSTER <= c < |v.fat| ==> |v.data[c]| == cs
  }

  lemma ViewSized(g: Geo, d: seq<byte>)
    requires Layout(g, |d|)
    ensures Sized(View(g, d), g.clusterSize)
  {
  }

  /** The bytes of a file entry. */
  ghost function FileBytes(v: Vol, cs: nat, e: DirEntry): seq<byte>
    requires Sized(v, cs)
  {
    var ch := ChainFrom(v.fat, e.firstCluster);
    ChainFromSpec(v.fat, e.firstCluster);
    assert forall i :: 0 <= i < |ch| ==> InRange(v.fat, ch[i]);
    Gather(v.data, ch, e.size, cs)
  }

  lemma Covered(n: nat, cs: nat, size: nat)
    requires 0 < size <= n * cs
    ensures n > 0
  {
  }

  /** Reading a file of the tree returns its bytes. */
  lemma ReadFileView(g: Geo, d: seq<byte>, e: DirEntry)
    requires Layout(g, |d|) && e.IsFile() && FileOk(View(g, d).fat, g.clusterSize, e)
    ensures Sized(View(g, d), g.clusterSize)
    ensures ReadFile(g, d, e) == Ok(FileBytes(View(g, d), g.clusterSize, e))
  {
    ViewSized(g, d);
    var ch := ChainFrom(View(g, d).fat, e.firstCluster);
    ChainFromSpec(View(g, d).fat, e.firstCluster);
    if e.size > 0 {
      Covered(|ch|, g.clusterSize, e.size);
      FollowChainView(g, d, e.firstCluster);
      ReadChainView(g, d, ch, e.size);
    }
  }

  lemma FileBytesKept(v: Vol, v': Vol, cs: nat, e: DirEntry)
    requires Sized(v, cs) && Sized(v', cs) && |v'.fat| == |v.fat|
    requires ChainFrom(v'.fat, e.firstCluster) == ChainFrom(v.fat, e.firstCluster)
    requires forall x :: x in ChainFrom(v.fat, e.firstCluster) && x < |v.data| ==> v'.data[x] == v.data[x]
    ensures FileBytes(v', cs, e) == FileBytes(v, cs, e)
  {
    var ch := ChainFrom(v.fat, e.firstCluster);
    ChainFromSpec(v.fat, e.firstCluster);
    forall i | 0 <= i < |ch| ensures ch[i] < |v.data| && |v.data[ch[i]]| == cs && v'.data[ch[i]] == v.data[ch[i]] {
      assert InRange(v.fat, ch[i]) && ch[i] in ch;
    }
    GatherFrame(v.data, v'.data, ch, e.size, cs);
  }

  // ---------- success ----------

  /** The conditions under which a write goes through. */
  ghost predicate Succeeds(g: Geo, d: seq<byte>, dirs: set<nat>, parent: nat, raw: RawName, content: seq<byte>) {
    && Writable(g, d, dirs, parent, raw)
    && !IsSubdir(Before(g, d, dirs), parent, OldName(g, d, parent, raw))
    && Enough(g, d, dirs, parent, OldName(g, d, parent, raw), content)
    && HasRoom(g, d, parent, raw)
  }

  /** A successful write of a name that does not start with NUL. */
  ghost predicate Enters(g: Geo, d: seq<byte>, dirs: set<nat>, parent: nat, raw: RawName, content: seq<byte>) {
    Succeeds(g, d, dirs, parent, raw, content) && raw[0] != END_MARK
  }

  ghost function UsedFor(g: Geo, d: seq<byte>, dirs: set<nat>, parent: nat, raw: RawName,
                         content: seq<byte>): (used: seq<nat>)
    requires Succeeds(g, d, dirs, parent, raw, content)
    ensures |used| == Needed(g, content)
  {
    UsedBy(g, d, dirs, parent, OldName(g, d, parent, raw), content)
  }

  ghost function StoredFor(g: Geo, d: seq<byte>, dirs: set<nat>, parent: nat, raw: RawName,
                           content: seq<byte>): (v: Vol)
    requires Succeeds(g, d, dirs, parent, raw, content)
    ensures |v.fat| == |v.data| == |View(g, d).fat|
  {
    StoredVol(g, d, dirs, parent, OldName(g, d, parent, raw), content)
  }

  /** The rows of the parent after the write. */
  ghost function NewGrid(g: Geo, d: seq<byte>, dirs: set<nat>, parent: nat, raw: RawName,
                         content: seq<byte>): (r: Option<Grid>)
    requires Succeeds(g, d, dirs, parent, raw, content)
  {
    WriteInDirIs(g, d, dirs, parent, raw, content);
    UpdateGrid(DirGrid(View(g, d), parent), raw, NewSlot(raw, UsedFor(g, d, dirs, parent, raw, content), content))
  }

  /** The parent's rows are updated once, in good order; a name that starts with NUL cuts them off. */
  lemma NewGridFacts(g: Geo, d: seq<byte>, dirs: set<nat>, parent: nat, raw: RawName, content: seq<byte>)
    requires Succeeds(g, d, dirs, parent, raw, content)
    ensures NewGrid(g, d, dirs, parent, raw, content).Some?
    ensures var grid, grid' := DirGrid(View(g, d), parent), NewGrid(g, d, dirs, parent, raw, content).value;
            var e := NewEntry(raw, UsedFor(g, d, dirs, parent, raw, content), content);
            && Place(grid, raw).Some?
            && if raw[0] == END_MARK then SlotCuts(grid, raw, grid')
               else
                 && Orderly(grid')
                 && ByName(Live(grid')) == ByName(Live(grid))[Decode(raw) := e]
                 && ListingUpdated(grid, raw, Listing(Live(grid')), e)
  {
    var used := UsedFor(g, d, dirs, parent, raw, content);
    var grid := DirGrid(View(g, d), parent);
    WriteInDirIs(g, d, dirs, parent, raw, content);
    NewSlotCarries(raw, used, content);
    DirectoryUpdate(grid, raw, NewSlot(raw, used, content), NewEntry(raw, used, content));
    ListingAfterUpdate(grid, raw, NewSlot(raw, used, content), NewEntry(raw, used, content));
  }

  /** The buffer after a successful write: the stored volume with the parent's rows updated. */
  lemma SuccessEffect(g: Geo, d: seq<byte>, dirs: set<nat>, parent: nat, raw: RawName, content: seq<byte>)
    requires Succeeds(g, d, dirs, parent, raw, content)
    ensures var o := WriteInDir(g, d, parent, raw, content);
            var v2 := StoredFor(g, d, dirs, parent, raw, content);
            && o.result == Ok(())
            && Effect(g, d, o.disk, View(g, o.disk))
            && View(g, o.disk).fat == v2.fat
            && Some(DirGrid(View(g, o.disk), parent)) == NewGrid(g, d, dirs, parent, raw, content)
            && forall x :: 0 <= x < |v2.data| && x !in ChainFrom(v2.fat, parent) ==>
                 View(g, o.disk).data[x] == v2.data[x]
  {
    var name := OldName(g, d, parent, raw);
    OldNameIsNotDot(g, d, parent, raw);
    WriteInDirIs(g, d, dirs, parent, raw, content);
    NewGridFacts(g, d, dirs, parent, raw, content);
    EnterAfterStore(g, d, dirs, parent, raw, content, NewSlot(raw, UsedFor(g, d, dirs, parent, raw, content), content));
    StoredState(g, d, dirs, parent, name, content);
  }

  /** No directory but the parent changes its rows; every directory keeps its chain. */
  lemma SuccessGrids(g: Geo, d: seq<byte>, dirs: set<nat>, parent: nat, raw: RawName, content: seq<byte>, c: nat)
    requires Succeeds(g, d, dirs, parent, raw, content) && c in dirs
    ensures var v3 := View(g, WriteInDir(g, d, parent, raw, content).disk);
            && ChainAt(v3.fat, c) == ChainAt(View(g, d).fat, c)
            && Some(DirGrid(v3, c))
               == if c == parent then NewGrid(g, d, dirs, parent, raw, content) else Some(DirGrid(View(g, d), c))
  {
    var name := OldName(g, d, parent, raw);
    SuccessEffect(g, d, dirs, parent, raw, content);
    StoredGrids(g, d, dirs, parent, name, content, c);
    if c != parent {
      StoredGrids(g, d, dirs, parent, name, content, parent);
      DirsApart(g, d, dirs, c, parent);
      GridSame(StoredFor(g, d, dirs, parent, raw, content), View(g, WriteInDir(g, d, parent, raw, content).disk),
               ChainFrom(View(g, d).fat, parent), c);
    }
  }

  lemma DirsApart(g: Geo, d: seq<byte>, dirs: set<nat>, a: nat, b: nat)
    requires WellFormed(g, d, dirs) && a in dirs && b in dirs && a != b
    ensures Disjoint(ChainFrom(View(g, d).fat, a), ChainFrom(View(g, d).fat, b))
  {
    var cat := Before(g, d, dirs);
    assert IsClaim(cat, DirClaim(a)) && IsClaim(cat, DirClaim(b));
    assert Disjoint(ClaimChain(View(g, d).fat, cat, DirClaim(a)), ClaimChain(View(g, d).fat, cat, DirClaim(b)));
  }

  /** The names of the parent after the write: one name updated; or those before the place taken, if the name starts
      with NUL. */
  ghost function NewNames(g: Geo, d: seq<byte>, dirs: set<nat>, parent: nat, raw: RawName,
                          content: seq<byte>): map<string, DirEntry>
    requires Succeeds(g, d, dirs, parent, raw, content)
  {
    if raw[0] == END_MARK then ByName(SlotsBefore(DirGrid(View(g, d), parent), raw))
    else ByName(DirSlots(View(g, d), parent))[
           Decode(raw) := NewEntry(raw, UsedFor(g, d, dirs, parent, raw, content), content)]
  }

  lemma NewGridNames(g: Geo, d: seq<byte>, dirs: set<nat>, parent: nat, raw: RawName, content: seq<byte>)
    requires Succeeds(g, d, dirs, parent, raw, content)
    ensures NewGrid(g, d, dirs, parent, raw, content).Some?
    ensures ByName(Live(NewGrid(g, d, dirs, parent, raw, content).value)) == NewNames(g, d, dirs, parent, raw, content)
  {
    NewGridFacts(g, d, dirs, parent, raw, content);
  }

  lemma SuccessNames(g: Geo, d: seq<byte>, dirs: set<nat>, parent: nat, raw: RawName, content: seq<byte>, c: nat)
    requires Succeeds(g, d, dirs, parent, raw, content) && c in dirs
    ensures ByName(DirSlots(View(g, WriteInDir(g, d, parent, raw, content).disk), c))
            == if c == parent then NewNames(g, d, dirs, parent, raw, content) else ByName(DirSlots(View(g, d), c))
  {
    SuccessGrids(g, d, dirs, parent, raw, content, c);
    NewGridNames(g, d, dirs, parent, raw, content);
    hide ByName, Live, View, NewGrid, NewNames, WriteInDir;
  }

  /** A successful write is one update of the catalog: at one name, or, under a name that starts with NUL, by dropping
      the names that only the slots behind the place taken show. */
  lemma SuccessCatalog(g: Geo, d: seq<byte>, dirs: set<nat>, parent: nat, raw: RawName, content: seq<byte>)
    requires Succeeds(g, d, dirs, parent, raw, content)
    ensures CatalogOf(View(g, WriteInDir(g, d, parent, raw, content).disk), dirs)
            == Before(g, d, dirs)[parent := NewNames(g, d, dirs, parent, raw, content)]
    ensures raw[0] != END_MARK ==>
              CatalogOf(View(g, WriteInDir(g, d, parent, raw, content).disk), dirs)
              == Enter(Before(g, d, dirs), parent, Decode(raw),
                       NewEntry(raw, UsedFor(g, d, dirs, parent, raw, content), content))
    ensures raw[0] == END_MARK ==>
              NewNames(g, d, dirs, parent, raw, content)
              == Before(g, d, dirs)[parent] - HiddenNames(DirGrid(View(g, d), parent), raw)
  {
    var v, v3 := View(g, d), View(g, WriteInDir(g, d, parent, raw, content).disk);
    forall c | c in dirs
      ensures ByName(DirSlots(v3, c))
              == if c == parent then NewNames(g, d, dirs, parent, raw, content) else ByName(DirSlots(v, c))
    {
      SuccessNames(g, d, dirs, parent, raw, content, c);
    }
    CatalogUpdate(v, v3, dirs, parent, NewNames(g, d, dirs, parent, raw, content));
    NamesLeft(DirGrid(v, parent), raw);
  }

  lemma CatalogUpdate(v: Vol, v': Vol, dirs: set<nat>, parent: nat, names: map<string, DirEntry>)
    requires |v.data| == |v.fat| && |v'.data| == |v'.fat| && parent in dirs
    requires forall c :: c in dirs ==>
               ByName(DirSlots(v', c)) == if c == parent then names else ByName(DirSlots(v, c))
    ensures CatalogOf(v', dirs) == CatalogOf(v, dirs)[parent := names]
  {
  }

  lemma NamesLeft(grid: Grid, raw: RawName)
    ensures ByName(SlotsBefore(grid, raw)) == ByName(Live(grid)) - HiddenNames(grid, raw)
  {
    var first := SlotsBefore(grid, raw);
    assert first == Live(grid)[..|first|];
    PrefixNames(Live(grid), |first|);
  }

  lemma SizeField(n: nat)
    ensures n % U32 <= n
    ensures n < U32 ==> n % U32 == n
  {
  }

  lemma FreshEntry(raw: RawName, used: seq<nat>, content: seq<byte>, cs: nat)
    requires |used| <= MAX_CHAIN && |content| <= |used| * cs
    ensures FreshFile(NewEntry(raw, used, content), used, cs)
  {
    SizeField(|content|);
  }

  lemma NewEntryIsFresh(g: Geo, d: seq<byte>, dirs: set<nat>, parent: nat, raw: RawName, content: seq<byte>)
    requires Succeeds(g, d, dirs, parent, raw, content) && Needed(g, content) <= MAX_CHAIN
    ensures var used := UsedFor(g, d, dirs, parent, raw, content);
            FreshFile(NewEntry(raw, used, content), used, g.clusterSize)
  {
    DivCeilSpec(|content|, g.clusterSize);
    FreshEntry(raw, UsedFor(g, d, dirs, parent, raw, content), content, g.clusterSize);
  }

  /** The write ends every chain of an entry and leaves nothing behind an end mark. */
  ghost predicate EndsWell(g: Geo, d: seq<byte>, parent: nat, raw: RawName, content: seq<byte>)
    requires Layout(g, |d|)
  {
    if raw[0] == END_MARK then
      var grid := DirGrid(View(g, d), parent);
      Place(grid, raw).Some? && NothingBehind(grid, Place(grid, raw).value.0)
    else Needed(g, content) <= MAX_CHAIN
  }

  /** A successful write keeps the volume well-formed if its chain is not too long; or, under a name that starts with
      NUL, if no later cluster of the directory shows anything. */
  lemma SuccessKeepsWellFormed(g: Geo, d: seq<byte>, dirs: set<nat>, parent: nat, raw: RawName, content: seq<byte>)
    requires Succeeds(g, d, dirs, parent, raw, content) && EndsWell(g, d, parent, raw, content)
    ensures WellFormed(g, WriteInDir(g, d, parent, raw, content).disk, dirs)
  {
    var d3 := WriteInDir(g, d, parent, raw, content).disk;
    assert TreeOk(View(g, d3).fat, g.clusterSize, g.root, CatalogOf(View(g, d3), dirs)) by {
      if raw[0] == END_MARK {
        CutKeepsTree(g, d, dirs, parent, raw, content);
      } else {
        SuccessKeepsTree(g, d, dirs, parent, raw, content);
      }
    }
    forall c | c in dirs ensures Orderly(DirGrid(View(g, d3), c)) {
      SuccessGrids(g, d, dirs, parent, raw, content, c);
      NewGridFacts(g, d, dirs, parent, raw, content);
    }
  }

  lemma SuccessKeepsTree(g: Geo, d: seq<byte>, dirs: set<nat>, parent: nat, raw: RawName, content: seq<byte>)
    requires Enters(g, d, dirs, parent, raw, content) && Needed(g, content) <= MAX_CHAIN
    ensures var d3 := WriteInDir(g, d, parent, raw, content).disk;
            TreeOk(View(g, d3).fat, g.clusterSize, g.root, CatalogOf(View(g, d3), dirs))
  {
    var name := OldName(g, d, parent, raw);
    var used := UsedFor(g, d, dirs, parent, raw, content);
    CleanIsNotDot(raw);
    OldNameReplaces(g, d, dirs, parent, raw);
    NewEntryIsFresh(g, d, dirs, parent, raw, content);
    StoredVolFacts(g, d, dirs, parent, name, content);
    SuccessEffect(g, d, dirs, parent, raw, content);
    SuccessCatalog(g, d, dirs, parent, raw, content);
    WriteKeepsTree(View(g, d).fat, View(g, WriteInDir(g, d, parent, raw, content).disk).fat, g.clusterSize, g.root,
                   Before(g, d, dirs), parent, name, Decode(raw), used, NewEntry(raw, used, content));
  }

  /** A write under a name that starts with NUL only drops names. */
  lemma CutIsFewer(g: Geo, d: seq<byte>, dirs: set<nat>, parent: nat, raw: RawName, content: seq<byte>)
    requires Succeeds(g, d, dirs, parent, raw, content) && raw[0] == END_MARK
    ensures var cat, cat' := Before(g, d, dirs), CatalogOf(View(g, WriteInDir(g, d, parent, raw, content).disk), dirs);
            && Fewer(cat, cat')
            && SameElsewhere(cat, cat', parent, HiddenNames(DirGrid(View(g, d), parent), raw))
  {
    SuccessCatalog(g, d, dirs, parent, raw, content);
    var hidden := HiddenNames(DirGrid(View(g, d), parent), raw);
    hide View, CatalogOf, HiddenNames, NewNames, WriteInDir;
    DropIsFewer(Before(g, d, dirs), parent, hidden);
  }

  /** The new chain belongs to nobody then, so however long it is, the tree is kept. */
  lemma CutKeepsTree(g: Geo, d: seq<byte>, dirs: set<nat>, parent: nat, raw: RawName, content: seq<byte>)
    requires Succeeds(g, d, dirs, parent, raw, content) && raw[0] == END_MARK
    ensures var d3 := WriteInDir(g, d, parent, raw, content).disk;
            TreeOk(View(g, d3).fat, g.clusterSize, g.root, CatalogOf(View(g, d3), dirs))
  {
    var cat, v3 := Before(g, d, dirs), View(g, WriteInDir(g, d, parent, raw, content).disk);
    NulReplacesNothing(g, d, dirs, parent, raw);
    StoredVolFacts(g, d, dirs, parent, Decode(raw), content);
    SuccessEffect(g, d, dirs, parent, raw, content);
    LeakKeepsTree(View(g, d).fat, v3.fat, g.clusterSize, g.root, cat, parent, Decode(raw),
                  UsedFor(g, d, dirs, parent, raw, content));
    CutIsFewer(g, d, dirs, parent, raw, content);
    FewerKeepsTree(v3.fat, g.clusterSize, g.root, cat, CatalogOf(v3, dirs));
  }

  /** The clusters of the new file hold exactly the content, however long. */
  lemma SuccessBytes(g: Geo, d: seq<byte>, dirs: set<nat>, parent: nat, raw: RawName, content: seq<byte>)
    requires Succeeds(g, d, dirs, parent, raw, content)
    ensures var v3 := View(g, WriteInDir(g, d, parent, raw, content).disk);
            var used := UsedFor(g, d, dirs, parent, raw, content);
            && Sized(v3, g.clusterSize) && |content| <= |used| * g.clusterSize
            && (forall i :: 0 <= i < |used| ==> used[i] < |v3.data| && |v3.data[used[i]]| == g.clusterSize)
            && Gather(v3.data, used, |content|, g.clusterSize) == content
  {
    var name := OldName(g, d, parent, raw);
    var v, v2 := View(g, d), StoredFor(g, d, dirs, parent, raw, content);
    var v3 := View(g, WriteInDir(g, d, parent, raw, content).disk);
    var used := UsedFor(g, d, dirs, parent, raw, content);
    SuccessEffect(g, d, dirs, parent, raw, content);
    NeededIsZero(g, content);
    StoredVolFacts(g, d, dirs, parent, name, content);
    StoredGrids(g, d, dirs, parent, name, content, parent);
    ViewSized(g, d);
    ViewSized(g, WriteInDir(g, d, parent, raw, content).disk);
    StoredBytes(v, v2, v3, ChainFrom(v2.fat, parent), used, content, g.clusterSize);
  }

  /** Its last cluster is zero behind the content. */
  lemma SuccessPadding(g: Geo, d: seq<byte>, dirs: set<nat>, parent: nat, raw: RawName, content: seq<byte>)
    requires Succeeds(g, d, dirs, parent, raw, content)
    ensures var v3 := View(g, WriteInDir(g, d, parent, raw, content).disk);
            var used := UsedFor(g, d, dirs, parent, raw, content);
            var n := |used| * g.clusterSize;
            && Sized(v3, g.clusterSize) && |content| <= n < |content| + g.clusterSize
            && (forall i :: 0 <= i < |used| ==> used[i] < |v3.data| && |v3.data[used[i]]| == g.clusterSize)
            && Gather(v3.data, used, n, g.clusterSize) == content + Zeros(n - |content|)
  {
    var name := OldName(g, d, parent, raw);
    var v, v2 := View(g, d), StoredFor(g, d, dirs, parent, raw, content);
    var v3 := View(g, WriteInDir(g, d, parent, raw, content).disk);
    var used := UsedFor(g, d, dirs, parent, raw, content);
    SuccessEffect(g, d, dirs, parent, raw, content);
    DivCeilSpec(|content|, g.clusterSize);
    StoredVolFacts(g, d, dirs, parent, name, content);
    StoredGrids(g, d, dirs, parent, name, content, parent);
    ViewSized(g, d);
    ViewSized(g, WriteInDir(g, d, parent, raw, content).disk);
    hide View, WriteInDir, Layout, OldName, Enough, HasRoom, TreeOk, Orderly, CatalogOf, IsSubdir;
    StoredClusters(v, v2, v3, ChainFrom(v2.fat, parent), used, content, g.clusterSize);
  }

  lemma StoredClusters(v: Vol, v2: Vol, v3: Vol, ch: seq<nat>, used: seq<nat>, content: seq<byte>, cs: nat)
    requires Sized(v, cs) && |v2.data| == |v.data| && Sized(v3, cs) && |v3.data| == |v.data| && cs > 0
    requires AllInRange(v.fat, used) && Distinct(used) && Disjoint(ch, used)
    requires |content| <= |used| * cs < |content| + cs
    requires (forall i :: 0 <= i < |used| ==> used[i] < |v.data|) && v2.data == Fill(v.data, used, content, cs)
    requires forall x :: 0 <= x < |v2.data| && x !in ch ==> v3.data[x] == v2.data[x]
    ensures forall i :: 0 <= i < |used| ==> used[i] < |v3.data| && |v3.data[used[i]]| == cs
    ensures Gather(v3.data, used, |used| * cs, cs) == content + Zeros(|used| * cs - |content|)
  {
    assert forall i :: 0 <= i < |used| ==> InRange(v.fat, used[i]);
    FillThenGatherAll(v.data, used, content, cs);
    assert forall i :: 0 <= i < |used| ==> used[i] in used;
    GatherFrame(v2.data, v3.data, used, |used| * cs, cs);
  }

  /** The new file holds exactly the content. */
  lemma SuccessContent(g: Geo, d: seq<byte>, dirs: set<nat>, parent: nat, raw: RawName, content: seq<byte>)
    requires Succeeds(g, d, dirs, parent, raw, content) && Fits(g, content)
    ensures var v3 := View(g, WriteInDir(g, d, parent, raw, content).disk);
            var e := NewEntry(raw, UsedFor(g, d, dirs, parent, raw, content), content);
            && Sized(v3, g.clusterSize) && e.size == |content| && FileBytes(v3, g.clusterSize, e) == content
            && FileOk(v3.fat, g.clusterSize, e)
  {
    var name := OldName(g, d, parent, raw);
    var v, v2 := View(g, d), StoredFor(g, d, dirs, parent, raw, content);
    var used := UsedFor(g, d, dirs, parent, raw, content);
    SuccessEffect(g, d, dirs, parent, raw, content);
    FitsNeeded(g, content);
    SizeField(|content|);
    NewEntryIsFresh(g, d, dirs, parent, raw, content);
    StoredVolFacts(g, d, dirs, parent, name, content);
    FreshChain(v.fat, v2.fat, Freed(g, d, dirs, parent, name), used, NewEntry(raw, used, content), g.clusterSize);
    SuccessBytes(g, d, dirs, parent, raw, content);
  }

  lemma StoredBytes(v: Vol, v2: Vol, v3: Vol, ch: seq<nat>, used: seq<nat>, content: seq<byte>, cs: nat)
    requires Sized(v, cs) && |v2.data| == |v.data| && Sized(v3, cs) && |v3.data| == |v.data| && cs > 0
    requires AllInRange(v.fat, used) && Distinct(used) && Disjoint(ch, used) && |content| <= |used| * cs
    requires (forall i :: 0 <= i < |used| ==> used[i] < |v.data|) && v2.data == Fill(v.data, used, content, cs)
    requires forall x :: 0 <= x < |v2.data| && x !in ch ==> v3.data[x] == v2.data[x]
    ensures forall i :: 0 <= i < |used| ==> used[i] < |v3.data| && |v3.data[used[i]]| == cs
    ensures Gather(v3.data, used, |content|, cs) == content
  {
    assert forall i :: 0 <= i < |used| ==> InRange(v.fat, used[i]);
    FillThenGather(v.data, used, content, cs);
    assert forall i :: 0 <= i < |used| ==> used[i] in used;
    GatherFrame(v2.data, v3.data, used, |content|, cs);
  }
}

/** Two kinds of names that the code accepts and does not handle: names that start with NUL, and names that a volume
    label has. */
module OddNames {
  import opened Wrappers
  import opened Bytes
  import opened Names
  import opened DirEntries
  import opened Chains
  import opened Geometry
  import opened Tables
  import opened Directories
  import opened DirUpdates
  import opened Paths
  import opened Engine
  import opened Tree
  import opened Volume
  import opened Lookup
  import opened Writes
  import opened Outcomes
  import opened Frame
  import opened Theorems
  import opened Promises

  // ---------- a name that starts with NUL: what the parent lists ----------

  /** When it succeeds: nothing of that name is ever found, so it takes a free slot. */
  lemma NulSucceeds(g: Geo, d: seq<byte>, dirs: set<nat>, parent: nat, raw: RawName, content: seq<byte>)
    requires Writable(g, d, dirs, parent, raw) && raw[0] == END_MARK
    ensures Succeeds(g, d, dirs, parent, raw, content)
            <==> FreeCount(View(g, d).fat) >= Needed(g, content) && HasFreeSlot(DirGrid(View(g, d), parent))
    ensures Place(DirGrid(View(g, d), parent), raw) == FreeGrid(DirGrid(View(g, d), parent))
  {
    NulReplacesNothing(g, d, dirs, parent, raw);
    NothingFreed(g, d, dirs, parent, Decode(raw));
    NulIsNotFound(DirGrid(View(g, d), parent), raw);
    FindGridSpec(DirGrid(View(g, d), parent), raw);
  }

  /** A write under such a name answers Ok, and from then on the parent lists only what the slots before the first free
      one show. So the listing is kept exactly when the slots from there on list nothing, which they do when that slot
      was the end mark. */
  lemma NulCutsListing(g: Geo, d: seq<byte>, dirs: set<nat>, parent: nat, raw: RawName, content: seq<byte>)
    requires Writable(g, d, dirs, parent, raw) && raw[0] == END_MARK
    requires FreeCount(View(g, d).fat) >= Needed(g, content) && FreeGrid(DirGrid(View(g, d), parent)).Some?
    ensures var o := WriteInDir(g, d, parent, raw, content);
            var grid := DirGrid(View(g, d), parent);
            var (i, a) := FreeGrid(grid).value;
            var k := FlatIndex(grid, i, a);
            && o.result == Ok(()) && k <= |Live(grid)|
            && ListDir(g, o.disk, parent) == Ok(Listing(Live(grid)[..k]))
            && (ListDir(g, o.disk, parent) == ListDir(g, d, parent) <==> Listing(Live(grid)[k..]) == [])
            && (grid[i][a][0] == END_MARK ==> k == |Live(grid)|)
  {
    var grid := DirGrid(View(g, d), parent);
    NulSucceeds(g, d, dirs, parent, raw, content);
    SuccessEffect(g, d, dirs, parent, raw, content);
    ParentListing(g, d, dirs, parent, raw, content);
    NewGridFacts(g, d, dirs, parent, raw, content);
    CutListing(grid, raw);
    EndMarkKeepsAll(grid);
    hide View, DirGrid, Live, Listing, Writable, Succeeds, ListDir, WriteInDir, NewGrid, FreeGrid, FlatIndex, Orderly,
      NothingBehind;
  }

  /** The first free slot is behind all live ones when it is the end mark. */
  lemma EndMarkKeepsAll(grid: Grid)
    requires FreeGrid(grid).Some?
    ensures var (i, a) := FreeGrid(grid).value;
            HasFreeSlot(grid) && (grid[i][a][0] == END_MARK ==> FlatIndex(grid, i, a) == |Live(grid)|)
  {
    FreeGridSpec(grid);
    var (i, a) := FreeGrid(grid).value;
    if grid[i][a][0] == END_MARK {
      CutLive(grid, i, a, grid[i]);
      assert grid[i := grid[i]] == grid;
    }
  }

  /** The chain that it stores belongs to nobody. */
  lemma NulLeaks(g: Geo, d: seq<byte>, dirs: set<nat>, parent: nat, raw: RawName, content: seq<byte>)
    requires Succeeds(g, d, dirs, parent, raw, content) && raw[0] == END_MARK && content != []
    ensures var d' := WriteInDir(g, d, parent, raw, content).disk;
            && |d'| == |d|
            && Leaked(View(g, d'), Before(g, d', dirs), UsedFor(g, d, dirs, parent, raw, content))
            && FreeCount(View(g, d').fat) + Needed(g, content) == FreeCount(View(g, d).fat)
  {
    var cat, d' := Before(g, d, dirs), WriteInDir(g, d, parent, raw, content).disk;
    NulReplacesNothing(g, d, dirs, parent, raw);
    NothingFreed(g, d, dirs, parent, Decode(raw));
    Conservation(g, d, dirs, parent, raw, content);
    LeakedChain(g, d, dirs, parent, Decode(raw), content);
    SuccessEffect(g, d, dirs, parent, raw, content);
    CutIsFewer(g, d, dirs, parent, raw, content);
    FewerLeaked(View(g, d'), cat, Before(g, d', dirs), UsedFor(g, d, dirs, parent, raw, content));
  }

  lemma FewerLeaked(v: Vol, cat: Catalog, cat': Catalog, used: seq<nat>)
    requires Leaked(v, cat, used) && Fewer(cat, cat')
    ensures Leaked(v, cat', used)
  {
    forall c | IsClaim(cat', c) ensures Disjoint(ClaimChain(v.fat, cat', c), used) {
      FewerClaim(cat, cat', c);
      assert Disjoint(ClaimChain(v.fat, cat, c), used);
    }
  }

  // ---------- a name that starts with NUL: what every path opens to ----------

  lemma {:induction false} DirOfKeys(cat: Catalog, dir: nat, a: seq<string>, b: seq<string>)
    requires Keys(a) == Keys(b)
    ensures DirOf(cat, dir, a) == DirOf(cat, dir, b)
    decreases |a|
  {
    assert |a| == |Keys(a)| == |b|;
    if a != [] {
      assert Upper(a[0]) == Keys(a)[0] == Keys(b)[0] == Upper(b[0]);
      assert Keys(a[1..]) == Keys(a)[1..] == Keys(b[1..]);
      if IsSubdir(cat, dir, Upper(a[0])) { DirOfKeys(cat, cat[dir][Upper(a[0])].firstCluster, a[1..], b[1..]); }
    }
  }

  /** A walk that comes to a directory without the next name ends there, with nothing found. */
  lemma {:induction false} NothingThere(cat: Catalog, dir: nat, done: seq<string>, rest: seq<string>)
    requires rest != [] && DirOf(cat, dir, done).Some?
    requires DirOf(cat, dir, done).value in cat ==> Upper(rest[0]) !in cat[DirOf(cat, dir, done).value]
    ensures Passable(cat, dir, done + rest) && Resolve(cat, dir, done + rest) == None
    decreases |done|
  {
    var parts := done + rest;
    if done == [] {
      assert parts == rest;
      if |rest| == 1 {
        assert parts[..0] == [];
      } else {
        ResolveStep(cat, dir, parts);
      }
    } else {
      assert parts[1..] == done[1..] + rest;
      NothingThere(cat, cat[dir][Upper(done[0])].firstCluster, done[1..], rest);
      ResolveStep(cat, dir, parts);
    }
  }

  lemma WalkEnds(cat: Catalog, root: nat, at: seq<string>, dir: nat, names: set<string>, parts: seq<string>)
    requires GoesThrough(parts, at, names) && DirOf(cat, root, at) == Some(dir)
    requires dir in cat && forall n :: n in names ==> n !in cat[dir]
    ensures parts != [] && Passable(cat, root, parts) && Resolve(cat, root, parts) == None
  {
    var done, rest := parts[..|at|], parts[|at|..];
    assert parts == done + rest && rest[0] == parts[|at|];
    DirOfKeys(cat, root, done, at);
    NothingThere(cat, root, done, rest);
  }

  /** A path through a hidden name opens to nothing. */
  lemma HiddenOpens(g: Geo, d: seq<byte>, dirs: set<nat>, path: string, parent: nat, raw: RawName, content: seq<byte>,
                    q: string)
    requires Targets(g, d, dirs, path, parent, raw) && Succeeds(g, d, dirs, parent, raw, content) && raw[0] == END_MARK
    requires Absolute(q) && NoDots(Components(q))
    requires GoesThrough(Components(q), Components(SplitParent(path).value.0),
                         HiddenNames(DirGrid(View(g, d), parent), raw))
    ensures OpenPath(g, WriteInDir(g, d, parent, raw, content).disk, q) == Ok(None)
  {
    var d' := WriteInDir(g, d, parent, raw, content).disk;
    WriteKeepsNavigable(g, d, dirs, parent, raw, content);
    ParentKept(g, d, dirs, path, parent, raw, content);
    HiddenGone(g, d, dirs, parent, raw, content);
    hide View, CatalogOf, HiddenNames, WriteInDir, Succeeds, DirOf, Navigable, Resolve, Passable, GoesThrough, NoDots,
      SplitParent, NoNewSubdirs, Components, Targets;
    WalkEnds(Before(g, d', dirs), g.root, Components(SplitParent(path).value.0), parent,
             HiddenNames(DirGrid(View(g, d), parent), raw), Components(q));
    OpenPathView(g, d', dirs, q);
  }

  lemma HiddenGone(g: Geo, d: seq<byte>, dirs: set<nat>, parent: nat, raw: RawName, content: seq<byte>)
    requires Succeeds(g, d, dirs, parent, raw, content) && raw[0] == END_MARK
    ensures |WriteInDir(g, d, parent, raw, content).disk| == |d|
    ensures forall n :: n in HiddenNames(DirGrid(View(g, d), parent), raw) ==>
              n !in Before(g, WriteInDir(g, d, parent, raw, content).disk, dirs)[parent]
  {
    SuccessCatalog(g, d, dirs, parent, raw, content);
  }

  /** What becomes of every path of the tree: one that goes through a name that only the slots from the place taken on
      show opens to nothing from then on; every other one opens and reads as before. */
  lemma NulHides(g: Geo, d: seq<byte>, dirs: set<nat>, path: string, parent: nat, raw: RawName, content: seq<byte>,
                 q: string)
    requires Targets(g, d, dirs, path, parent, raw) && Succeeds(g, d, dirs, parent, raw, content) && raw[0] == END_MARK
    requires Absolute(q) && NoDots(Components(q)) && Passable(Before(g, d, dirs), g.root, Components(q))
    ensures var d' := WriteFile(g, d, path, content).disk;
            if GoesThrough(Components(q), Components(SplitParent(path).value.0),
                           HiddenNames(DirGrid(View(g, d), parent), raw))
            then OpenPath(g, d', q) == Ok(None) && ReadFileByPath(g, d', q) == Ok(None)
            else OpenPath(g, d', q) == OpenPath(g, d, q) && ReadFileByPath(g, d', q) == ReadFileByPath(g, d, q)
  {
    TargetedWrite(g, d, dirs, path, parent, raw, content);
    if GoesThrough(Components(q), Components(SplitParent(path).value.0),
                   HiddenNames(DirGrid(View(g, d), parent), raw)) {
      HiddenOpens(g, d, dirs, path, parent, raw, content, q);
    } else {
      TargetOtherPath(g, d, dirs, path, parent, raw, content, q);
    }
  }

  // ---------- a name that a volume label has ----------

  lemma LabelFreesNothing(g: Geo, d: seq<byte>, dirs: set<nat>, parent: nat, raw: RawName)
    requires Writable(g, d, dirs, parent, raw) && LabelHit(DirGrid(View(g, d), parent), raw)
    ensures OldName(g, d, parent, raw) == NO_NAME && Freed(g, d, dirs, parent, NO_NAME) == []
    ensures NO_NAME !in Before(g, d, dirs)[parent] && HasRoom(g, d, parent, raw)
  {
    NoNameIsNotShown(DirSlots(View(g, d), parent));
    PlaceExists(DirGrid(View(g, d), parent), raw);
  }

  /** When the raw search stops at a volume label, the label is overwritten: the write succeeds if and only if there are
      clusters enough, even where a directory has that name; no cluster is given back; the catalog takes the new entry;
      and if the parent showed an entry of that name behind the label, there are now two. */
  lemma LabelOverwritten(g: Geo, d: seq<byte>, dirs: set<nat>, parent: nat, raw: RawName, content: seq<byte>)
    requires Writable(g, d, dirs, parent, raw) && LabelHit(DirGrid(View(g, d), parent), raw)
    ensures var o := WriteInDir(g, d, parent, raw, content);
            if FreeCount(View(g, d).fat) < Needed(g, content) then o == Outcome(Err(NoSpaceLeft), d)
            else
              && Enters(g, d, dirs, parent, raw, content) && o.result == Ok(())
              && Before(g, o.disk, dirs) == Enter(Before(g, d, dirs), parent, Decode(raw),
                                                  NewEntry(raw, UsedFor(g, d, dirs, parent, raw, content), content))
              && FreeCount(View(g, o.disk).fat) + Needed(g, content) == FreeCount(View(g, d).fat)
              && (UniqueNames(View(g, d), dirs) ==>
                    (UniqueNames(View(g, o.disk), dirs) <==> Decode(raw) !in Before(g, d, dirs)[parent]))
  {
    LabelFreesNothing(g, d, dirs, parent, raw);
    if raw[0] == END_MARK { NulIsNotFound(DirGrid(View(g, d), parent), raw); }
    if FreeCount(View(g, d).fat) < Needed(g, content) {
      NoNameIsNotShown([]);
      WriteInDirIs(g, d, dirs, parent, raw, content);
      ReleasedState(g, d, dirs, parent, NO_NAME);
    } else {
      SuccessEffect(g, d, dirs, parent, raw, content);
      SuccessCatalog(g, d, dirs, parent, raw, content);
      Conservation(g, d, dirs, parent, raw, content);
      if UniqueNames(View(g, d), dirs) { WriteKeepsUnique(g, d, dirs, parent, raw, content); }
    }
  }

  /** The file that had the name behind the label keeps its chain, which belongs to nobody from then on. */
  lemma LabelLeaksOld(g: Geo, d: seq<byte>, dirs: set<nat>, parent: nat, raw: RawName, content: seq<byte>)
    requires Succeeds(g, d, dirs, parent, raw, content) && LabelHit(DirGrid(View(g, d), parent), raw)
    requires IsClaim(Before(g, d, dirs), FileClaim(parent, Decode(raw)))
    ensures var d' := WriteInDir(g, d, parent, raw, content).disk;
            var ch := ClaimChain(View(g, d).fat, Before(g, d, dirs), FileClaim(parent, Decode(raw)));
            |d'| == |d| && (ch != [] ==> Leaked(View(g, d'), Before(g, d', dirs), ch))
  {
    var v, v' := View(g, d), View(g, WriteInDir(g, d, parent, raw, content).disk);
    var used := UsedFor(g, d, dirs, parent, raw, content);
    var e := NewEntry(raw, used, content);
    LabelFreesNothing(g, d, dirs, parent, raw);
    LabelOverwritten(g, d, dirs, parent, raw, content);
    SuccessEffect(g, d, dirs, parent, raw, content);
    StoredVolFacts(g, d, dirs, parent, NO_NAME, content);
    NewChainIs(g, d, dirs, parent, raw, content);
    OldChainLeaks(v.fat, v'.fat, g.clusterSize, g.root, Before(g, d, dirs), parent, Decode(raw), used, e);
  }

  /** The chain behind the new entry is the one the write made, or none that a reader finishes. */
  lemma NewChainIs(g: Geo, d: seq<byte>, dirs: set<nat>, parent: nat, raw: RawName, content: seq<byte>)
    requires Succeeds(g, d, dirs, parent, raw, content)
    ensures |WriteInDir(g, d, parent, raw, content).disk| == |d|
    ensures var used := UsedFor(g, d, dirs, parent, raw, content);
            var ch := ChainFrom(View(g, WriteInDir(g, d, parent, raw, content).disk).fat, First(used));
            ch == used || ch == []
  {
    var used := UsedFor(g, d, dirs, parent, raw, content);
    SuccessEffect(g, d, dirs, parent, raw, content);
    if Needed(g, content) <= MAX_CHAIN {
      NewChainOf(g, d, dirs, parent, raw, content);
    } else {
      StoredVolFacts(g, d, dirs, parent, OldName(g, d, parent, raw), content);
      LinkMakesChain(Zero(View(g, d).fat, Freed(g, d, dirs, parent, OldName(g, d, parent, raw))), used);
      LongChainBreaks(View(g, WriteInDir(g, d, parent, raw, content).disk).fat, used);
    }
  }

  lemma OldChainLeaks(fat: Fat, fat': Fat, cs: nat, root: nat, cat: Catalog, dir: nat, name: string, used: seq<nat>,
                      e: DirEntry)
    requires TreeOk(fat, cs, root, cat) && dir in cat && NO_NAME !in cat[dir] && Relinked(fat, fat', [], used)
    requires IsClaim(cat, FileClaim(dir, name)) && e.IsFile()
    requires ChainFrom(fat', e.firstCluster) == used || ChainFrom(fat', e.firstCluster) == []
    ensures var ch := ClaimChain(fat, cat, FileClaim(dir, name));
            ch != [] ==> IsChain(fat', ch) && forall c :: IsClaim(Enter(cat, dir, name, e), c) ==>
              Disjoint(ClaimChain(fat', Enter(cat, dir, name, e), c), ch)
  {
    var cat', mine := Enter(cat, dir, name, e), FileClaim(dir, name);
    var ch := ClaimChain(fat, cat, mine);
    assert OldChain(fat, cat, dir, NO_NAME) == [];
    OtherClaimKept(fat, fat', cs, root, cat, dir, NO_NAME, used, mine);
    ChainFromSpec(fat', StartOf(cat, mine));
    forall c | IsClaim(cat', c) ensures Disjoint(ClaimChain(fat', cat', c), ch) {
      if c == mine {
        assert StartOf(cat', c) == e.firstCluster;
      } else {
        SameClaim(cat, dir, name, e, c);
        OtherClaimKept(fat, fat', cs, root, cat, dir, NO_NAME, used, c);
        assert Disjoint(ClaimChain(fat, cat, c), ClaimChain(fat, cat, mine));
      }
    }
  }
}

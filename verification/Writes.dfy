/** One write on a well-formed volume: its outcome, and the volume it leaves. */
module Writes {
  import opened Wrappers
  import opened Bytes
  import opened Names
  import opened DirEntries
  import opened Chains
  import opened Geometry
  import opened Tables
  import opened Clusters
  import opened Directories
  import opened DirUpdates
  import opened Engine
  import opened Refinement
  import opened Tree
  import opened Volume

  // ---------- the directory side ----------

  /** The name whose entry a write replaces: that of the raw name; no name at all when a volume label with the same
      bytes is found first. */
  function OldName(g: Geo, d: seq<byte>, parent: nat, raw: RawName): string
    requires Layout(g, |d|)
  {
    if LabelHit(DirGrid(View(g, d), parent), raw) then NO_NAME else Decode(raw)
  }

  /** The raw search reports the entry that the parent's map holds under that name, and the place it was found at. */
  lemma FindEntryView(g: Geo, d: seq<byte>, parent: nat, raw: RawName)
    requires Layout(g, |d|) && ChainAt(View(g, d).fat, parent).Some?
    requires Clean(raw) && NamesClean(DirSlots(View(g, d), parent))
    ensures FindEntry(g, d, parent, raw)
            == Ok(Found(PlaceOf(g, d, parent, raw),
                        Get(ByName(DirSlots(View(g, d), parent)), OldName(g, d, parent, raw))))
  {
    ChainFromSpec(View(g, d).fat, parent);
    FollowChainView(g, d, parent);
    FindInChainView(g, d, ChainFrom(View(g, d).fat, parent), raw);
    RawSearchIsLookup(DirGrid(View(g, d), parent), raw);
    NoNameIsNotShown(DirSlots(View(g, d), parent));
  }

  /** The offset of the slot that matches `raw`, if any. */
  function PlaceOf(g: Geo, d: seq<byte>, parent: nat, raw: RawName): Option<nat>
    requires Layout(g, |d|)
  {
    var ch := ChainFrom(View(g, d).fat, parent);
    ChainFromSpec(View(g, d).fat, parent);
    match FindGrid(DirGrid(View(g, d), parent), raw)
    case None => None
    case Some((i, a)) => assert InRange(View(g, d).fat, ch[i]); Some(SlotOffset(g, ch, i, a))
  }

  /** Entering the slot updates the rows as `UpdateGrid` says, or reports a full directory and touches nothing. */
  lemma EnterSlotEffect(g: Geo, d: seq<byte>, parent: nat, raw: RawName, s: Slot)
    requires Layout(g, |d|) && ChainAt(View(g, d).fat, parent).Some?
    ensures var ch := ChainFrom(View(g, d).fat, parent);
            var o := EnterSlot(g, d, parent, PlaceOf(g, d, parent, raw), s);
            && AllInRange(View(g, d).fat, ch)
            && match UpdateGrid(DirGrid(View(g, d), parent), raw, s)
               case None => o == Outcome(Err(NoSpaceLeft), d)
               case Some(grid) => o.result == Ok(()) && DirEffect(g, d, o.disk, ch, grid)
  {
    var ch := ChainFrom(View(g, d).fat, parent);
    var grid := DirGrid(View(g, d), parent);
    ChainFromSpec(View(g, d).fat, parent);
    match FindGrid(grid, raw)
    case Some((i, a)) =>
      SlotWriteEffect(g, d, ch, i, a, s);
    case None =>
      EnterNewEffect(g, d, parent, s);
  }

  lemma EnterNewIs(g: Geo, d: seq<byte>, parent: nat, s: Slot)
    requires Layout(g, |d|) && ChainAt(View(g, d).fat, parent).Some?
    ensures var ch, grid := ChainFrom(View(g, d).fat, parent), DirGrid(View(g, d), parent);
            && |grid| == |ch| && (forall i :: 0 <= i < |ch| ==> FIRST_CLUSTER <= ch[i])
            && var free := FreeAt(g, ch, grid, FreeGrid(grid));
            && (free.Ok? ==> free.value.clusterEnd <= |d|)
            && EnterNew(g, d, parent, s) == if free.Ok? then EnterFree(d, free.value, s)
               else Outcome(Err(free.error), d)
  {
    ChainFromSpec(View(g, d).fat, parent);
    FollowChainView(g, d, parent);
    FreeInChainView(g, d, ChainFrom(View(g, d).fat, parent));
    hide View, Layout, FreeInChain, EnterFree, FreeAt;
  }

  lemma EnterNewEffect(g: Geo, d: seq<byte>, parent: nat, s: Slot)
    requires Layout(g, |d|) && ChainAt(View(g, d).fat, parent).Some?
    ensures var ch := ChainFrom(View(g, d).fat, parent);
            var grid := DirGrid(View(g, d), parent);
            var o := EnterNew(g, d, parent, s);
            && AllInRange(View(g, d).fat, ch)
            && match FreeGrid(grid)
               case None => o == Outcome(Err(NoSpaceLeft), d)
               case Some((i, a)) =>
                 o.result == Ok(())
                 && DirEffect(g, d, o.disk, ch, if grid[i][a][0] == END_MARK then PutAtEnd(grid, i, a, s)
                    else PutSlot(grid, i, a, s))
  {
    var ch := ChainFrom(View(g, d).fat, parent);
    var grid := DirGrid(View(g, d), parent);
    ChainFromSpec(View(g, d).fat, parent);
    EnterNewIs(g, d, parent, s);
    hide View, Layout, DirEffect, EnterFree, EnterNew;
    match FreeGrid(grid)
    case None =>
    case Some((i, a)) =>
      EnterFreeEffect(g, d, ch, i, a, s);
  }

  lemma EnterFreeIs(d: seq<byte>, free: FreeSlot, s: Slot)
    requires free.offset + SLOT_SIZE <= free.clusterEnd <= |d|
    ensures EnterFree(d, free, s)
            == Outcome(Ok(()), if free.wasEnd then EndWritten(d, free.offset, s, free.clusterEnd)
              else Splice(d, free.offset, s))
  {
  }

  lemma EnterFreeEffect(g: Geo, d: seq<byte>, ch: seq<nat>, i: nat, a: nat, s: Slot)
    requires Layout(g, |d|) && AllInRange(View(g, d).fat, ch) && Distinct(ch) && i < |ch|
    requires a < |GridOf(View(g, d).data, ch)[i]|
    ensures var grid := GridOf(View(g, d).data, ch);
            var atEnd := grid[i][a][0] == END_MARK;
            var free := FreeSlot(SlotOffset(g, ch, i, a), atEnd, ClusterOff(g, ch[i]) + g.clusterSize);
            && free.clusterEnd <= |d|
            && EnterFree(d, free, s).result == Ok(())
            && DirEffect(g, d, EnterFree(d, free, s).disk, ch, if atEnd then PutAtEnd(grid, i, a, s)
               else PutSlot(grid, i, a, s))
  {
    SlotInCluster(g, d, ch, i, a);
    var atEnd := GridOf(View(g, d).data, ch)[i][a][0] == END_MARK;
    EnterFreeIs(d, FreeSlot(SlotOffset(g, ch, i, a), atEnd, ClusterOff(g, ch[i]) + g.clusterSize), s);
    if atEnd {
      EndWriteEffect(g, d, ch, i, a, s);
    } else {
      SlotWriteEffect(g, d, ch, i, a, s);
    }
  }

  // ---------- the setting of one write ----------

  /** The parent is a directory of the volume, and the raw name is one that the encoder gives. */
  ghost predicate Writable(g: Geo, d: seq<byte>, dirs: set<nat>, parent: nat, raw: RawName) {
    WellFormed(g, d, dirs) && parent in dirs && Clean(raw) && raw[0] != DELETED
  }

  /** What a reader can get back: at most 4096 clusters, and a size that fits its field. */
  predicate Fits(g: Geo, content: seq<byte>) {
    |content| <= MAX_CHAIN * g.clusterSize && |content| < U32
  }

  lemma FitsNeeded(g: Geo, content: seq<byte>)
    requires g.clusterSize > 0 && Fits(g, content)
    ensures Needed(g, content) <= MAX_CHAIN && |content| <= Needed(g, content) * g.clusterSize
  {
    DivCeilSpec(|content|, g.clusterSize);
    if Needed(g, content) > MAX_CHAIN {
      MulMono(MAX_CHAIN + 1, Needed(g, content), g.clusterSize);
      assert false;
    }
  }

  ghost function Before(g: Geo, d: seq<byte>, dirs: set<nat>): Catalog
    requires Layout(g, |d|)
  {
    CatalogOf(View(g, d), dirs)
  }

  /** The clusters the write gives back first. */
  ghost function Freed(g: Geo, d: seq<byte>, dirs: set<nat>, parent: nat, name: string): seq<nat>
    requires Layout(g, |d|) && parent in dirs
  {
    OldChain(View(g, d).fat, Before(g, d, dirs), parent, name)
  }

  lemma FreedFacts(g: Geo, d: seq<byte>, dirs: set<nat>, parent: nat, name: string)
    requires WellFormed(g, d, dirs) && parent in dirs
    ensures var fat := View(g, d).fat;
            var ch := Freed(g, d, dirs, parent, name);
            && AllInRange(fat, ch) && Distinct(ch)
            && FreeCount(Zero(fat, ch)) == FreeCount(fat) + |ch|
  {
    var fat := View(g, d).fat;
    var ch := Freed(g, d, dirs, parent, name);
    if ch != [] {
      ChainFromSpec(fat, StartOf(Before(g, d, dirs), FileClaim(parent, name)));
      ChainNotFree(fat, ch, []);
      assert forall i :: 0 <= i < |ch| ==> ch[i] in ch;
    }
    FreeCountZero(fat, ch);
  }

  /** The first `n` clusters free once `freed` has been given back. */
  function Used(fat: Fat, freed: seq<nat>, n: nat): seq<nat>
    requires AllInRange(fat, freed) && n <= FreeCount(Zero(fat, freed))
  {
    FreeClusters(Zero(fat, freed))[..n]
  }

  lemma UsedRelinks(fat: Fat, freed: seq<nat>, n: nat)
    requires AllInRange(fat, freed) && n <= FreeCount(Zero(fat, freed))
    ensures AllInRange(Zero(fat, freed), Used(fat, freed, n))
    ensures Relinked(fat, Link(Zero(fat, freed), Used(fat, freed, n)), freed, Used(fat, freed, n))
  {
    FirstFitIsLowest(Zero(fat, freed), n);
  }

  // ---------- directories away from the change ----------

  /** Rows of a directory do not change when neither its chain nor its clusters do. */
  lemma GridKept(v: Vol, v': Vol, cs: nat, root: nat, dirs: set<nat>, parent: nat, name: string, used: seq<nat>, c: nat)
    requires |v.data| == |v.fat| && |v'.data| == |v.fat| && parent in dirs && c in dirs
    requires TreeOk(v.fat, cs, root, CatalogOf(v, dirs))
    requires Relinked(v.fat, v'.fat, OldChain(v.fat, CatalogOf(v, dirs), parent, name), used)
    requires forall x :: 0 <= x < |v.data| && x !in used ==> v'.data[x] == v.data[x]
    ensures ChainAt(v'.fat, c) == ChainAt(v.fat, c) && ChainAt(v.fat, c).Some?
    ensures DirGrid(v', c) == DirGrid(v, c)
    ensures Disjoint(ChainFrom(v.fat, c), used)
  {
    OtherClaimKept(v.fat, v'.fat, cs, root, CatalogOf(v, dirs), parent, name, used, DirClaim(c));
    var ch := ChainFrom(v.fat, c);
    ChainFromSpec(v.fat, c);
    forall i | 0 <= i < |ch| ensures v'.data[ch[i]] == v.data[ch[i]] {
      assert InRange(v.fat, ch[i]) && ch[i] in ch;
    }
  }

  lemma GridSame(v: Vol, v': Vol, ch: seq<nat>, c: nat)
    requires |v.data| == |v.fat| && |v'.data| == |v.fat| && v'.fat == v.fat
    requires forall x :: 0 <= x < |v.data| && x !in ch ==> v'.data[x] == v.data[x]
    requires Disjoint(ChainFrom(v.fat, c), ch)
    ensures DirGrid(v', c) == DirGrid(v, c)
  {
    var mine := ChainFrom(v.fat, c);
    ChainFromSpec(v.fat, c);
    forall i | 0 <= i < |mine| ensures v'.data[mine[i]] == v.data[mine[i]] {
      assert InRange(v.fat, mine[i]) && mine[i] in mine;
    }
  }

  // ---------- the stages put together ----------

  ghost predicate Enough(g: Geo, d: seq<byte>, dirs: set<nat>, parent: nat, name: string, content: seq<byte>)
    requires WellFormed(g, d, dirs) && parent in dirs
  {
    FreeCount(View(g, d).fat) + |Freed(g, d, dirs, parent, name)| >= Needed(g, content)
  }

  /** The clusters the new content goes to. */
  ghost function UsedBy(g: Geo, d: seq<byte>, dirs: set<nat>, parent: nat, name: string,
                        content: seq<byte>): (used: seq<nat>)
    requires WellFormed(g, d, dirs) && parent in dirs && Enough(g, d, dirs, parent, name, content)
    ensures |used| == Needed(g, content)
  {
    FreedFacts(g, d, dirs, parent, name);
    Used(View(g, d).fat, Freed(g, d, dirs, parent, name), Needed(g, content))
  }

  /** The volume once the content is stored, before the directory is updated. */
  ghost function StoredVol(g: Geo, d: seq<byte>, dirs: set<nat>, parent: nat, name: string,
                           content: seq<byte>): (v: Vol)
    requires WellFormed(g, d, dirs) && parent in dirs && Enough(g, d, dirs, parent, name, content)
    ensures |v.fat| == |v.data| == |View(g, d).fat|
  {
    FreedFacts(g, d, dirs, parent, name);
    UsedRelinks(View(g, d).fat, Freed(g, d, dirs, parent, name), Needed(g, content));
    var used := UsedBy(g, d, dirs, parent, name, content);
    assert forall i :: 0 <= i < |used| ==> InRange(Zero(View(g, d).fat, Freed(g, d, dirs, parent, name)), used[i]);
    Vol(Link(Zero(View(g, d).fat, Freed(g, d, dirs, parent, name)), used),
        Fill(View(g, d).data, used, content, g.clusterSize))
  }

  lemma StoredVolFacts(g: Geo, d: seq<byte>, dirs: set<nat>, parent: nat, name: string, content: seq<byte>)
    requires WellFormed(g, d, dirs) && parent in dirs && Enough(g, d, dirs, parent, name, content)
    ensures var v, v2 := View(g, d), StoredVol(g, d, dirs, parent, name, content);
            var used := UsedBy(g, d, dirs, parent, name, content);
            && Relinked(v.fat, v2.fat, Freed(g, d, dirs, parent, name), used)
            && (forall x :: 0 <= x < |v.data| && x !in used ==> v2.data[x] == v.data[x])
  {
    FreedFacts(g, d, dirs, parent, name);
    UsedRelinks(View(g, d).fat, Freed(g, d, dirs, parent, name), Needed(g, content));
  }

  /** The buffer at that point. */
  ghost function StoredDisk(g: Geo, d: seq<byte>, dirs: set<nat>, parent: nat, name: string,
                            content: seq<byte>): (r: seq<byte>)
    requires WellFormed(g, d, dirs) && parent in dirs
    ensures |r| == |d|
  {
    Store(g, ReleasedDisk(g, d, dirs, parent, name), content).disk
  }

  function First(used: seq<nat>): nat {
    if used == [] then 0 else used[0]
  }

  /** The entry a successful write leaves. */
  function NewEntry(raw: RawName, used: seq<nat>, content: seq<byte>): DirEntry {
    DirEntry(Decode(raw), FILE_ATTRIBUTES, First(used), |content| % U32)
  }

  /** Its fields: the decoded name, the archive flag alone, the first cluster or 0, and the length modulo 2^32. */
  lemma NewEntryFields(raw: RawName, used: seq<nat>, content: seq<byte>)
    ensures var e := NewEntry(raw, used, content);
            && e.name == Decode(raw) && e.attrs == Attributes(false, false, false, false, false, true)
            && e.firstCluster == (if used == [] then 0 else used[0])
            && e.size == |content| % 0x1_0000_0000
  {
  }

  lemma StoreAfterRelease(g: Geo, d: seq<byte>, r: seq<byte>, fat: Fat, content: seq<byte>)
    requires Layout(g, |d|) && |fat| == |View(g, d).fat| && Effect(g, d, r, Vol(fat, View(g, d).data))
    ensures var n := Needed(g, content);
            var o := Store(g, r, content);
            if FreeCount(fat) < n then o == Outcome(Err(NoSpaceLeft), r)
            else
              var used := FreeClusters(fat)[..n];
              && AllInRange(fat, used) && (forall i :: 0 <= i < |used| ==> used[i] < |View(g, d).data|)
              && o.result == Ok(First(used))
              && Effect(g, d, o.disk, Vol(Link(fat, used), Fill(View(g, d).data, used, content, g.clusterSize)))
  {
    StoreEffect(g, r, content);
    if FreeCount(fat) >= Needed(g, content) {
      var used := FreeClusters(fat)[..Needed(g, content)];
      assert forall i :: 0 <= i < |used| ==> InRange(fat, used[i]);
    }
  }

  ghost function ReleasedDisk(g: Geo, d: seq<byte>, dirs: set<nat>, parent: nat, name: string): (r: seq<byte>)
    requires Layout(g, |d|) && parent in dirs
    ensures |r| == |d|
  {
    Release(g, d, Get(Before(g, d, dirs)[parent], name)).disk
  }

  /** Freeing the old chain gives its clusters back, and does nothing else. */
  lemma ReleasedState(g: Geo, d: seq<byte>, dirs: set<nat>, parent: nat, name: string)
    requires WellFormed(g, d, dirs) && parent in dirs && !IsDotName(name)
    requires !IsSubdir(Before(g, d, dirs), parent, name)
    ensures var freed := Freed(g, d, dirs, parent, name);
            var r := Release(g, d, Get(Before(g, d, dirs)[parent], name));
            && AllInRange(View(g, d).fat, freed) && r.result == Ok(()) && (freed == [] ==> r.disk == d)
            && Effect(g, d, r.disk, Vol(Zero(View(g, d).fat, freed), View(g, d).data))
            && FreeCount(Zero(View(g, d).fat, freed)) == FreeCount(View(g, d).fat) + |freed|
  {
    var entry := Get(Before(g, d, dirs)[parent], name);
    assert entry.Some? ==> HasEntry(Before(g, d, dirs), parent, name);
    FreedFacts(g, d, dirs, parent, name);
    ReleaseEffect(g, d, entry);
  }

  /** Storing the content then either fails and does nothing, or links and fills the lowest free clusters. */
  lemma StoredState(g: Geo, d: seq<byte>, dirs: set<nat>, parent: nat, name: string, content: seq<byte>)
    requires WellFormed(g, d, dirs) && parent in dirs && !IsDotName(name)
    requires !IsSubdir(Before(g, d, dirs), parent, name)
    ensures var o := Store(g, ReleasedDisk(g, d, dirs, parent, name), content);
            if !Enough(g, d, dirs, parent, name, content)
            then o == Outcome(Err(NoSpaceLeft), ReleasedDisk(g, d, dirs, parent, name))
            else
              && o.result == Ok(First(UsedBy(g, d, dirs, parent, name, content)))
              && Effect(g, d, o.disk, StoredVol(g, d, dirs, parent, name, content))
  {
    ReleasedState(g, d, dirs, parent, name);
    StoreAfterRelease(g, d, ReleasedDisk(g, d, dirs, parent, name),
                      Zero(View(g, d).fat, Freed(g, d, dirs, parent, name)), content);
  }

  /** Storing the content moves no directory. */
  lemma StoredGrids(g: Geo, d: seq<byte>, dirs: set<nat>, parent: nat, name: string, content: seq<byte>, c: nat)
    requires WellFormed(g, d, dirs) && parent in dirs && Enough(g, d, dirs, parent, name, content) && c in dirs
    ensures var v2 := StoredVol(g, d, dirs, parent, name, content);
            && ChainAt(v2.fat, c) == ChainAt(View(g, d).fat, c) && ChainAt(v2.fat, c).Some?
            && DirGrid(v2, c) == DirGrid(View(g, d), c)
            && Disjoint(ChainFrom(v2.fat, c), UsedBy(g, d, dirs, parent, name, content))
  {
    StoredVolFacts(g, d, dirs, parent, name, content);
    GridKept(View(g, d), StoredVol(g, d, dirs, parent, name, content), g.clusterSize, g.root, dirs, parent, name,
             UsedBy(g, d, dirs, parent, name, content), c);
  }

  lemma WriteInDirUnfold(g: Geo, d: seq<byte>, parent: nat, raw: RawName, content: seq<byte>, found: Found)
    requires g.clusterSize > 0
    requires FindEntry(g, d, parent, raw) == Ok(found)
    requires found.entry.Some? ==> found.entry.value.IsFile()
    requires Release(g, d, found.entry).result == Ok(())
    ensures var stored := Store(g, Release(g, d, found.entry).disk, content);
            WriteInDir(g, d, parent, raw, content)
            == match stored.result
               case Err(e) => Outcome(Err(e), stored.disk)
               case Ok(first) => EnterSlot(g, stored.disk, parent, found.offset, FileSlot(raw, first, |content| % U32))
  {
  }

  /** Storing the content does not move the slot the search found. */
  lemma PlaceKept(g: Geo, d: seq<byte>, dirs: set<nat>, parent: nat, name: string, content: seq<byte>, raw: RawName)
    requires WellFormed(g, d, dirs) && parent in dirs && !IsDotName(name)
    requires !IsSubdir(Before(g, d, dirs), parent, name) && Enough(g, d, dirs, parent, name, content)
    ensures var d2 := StoredDisk(g, d, dirs, parent, name, content);
            Layout(g, |d2|) && PlaceOf(g, d2, parent, raw) == PlaceOf(g, d, parent, raw)
  {
    StoredState(g, d, dirs, parent, name, content);
    StoredGrids(g, d, dirs, parent, name, content, parent);
  }

  lemma OldNameIsNotDot(g: Geo, d: seq<byte>, parent: nat, raw: RawName)
    requires Layout(g, |d|) && Clean(raw)
    ensures !IsDotName(OldName(g, d, parent, raw))
  {
    CleanIsNotDot(raw);
    NoNameIsNotShown([]);
  }

  /** The write replaces the entry of its own name, or none. */
  lemma OldNameReplaces(g: Geo, d: seq<byte>, dirs: set<nat>, parent: nat, raw: RawName)
    requires Layout(g, |d|) && parent in dirs
    ensures Replaces(Before(g, d, dirs), parent, OldName(g, d, parent, raw), Decode(raw))
  {
    NoNameIsNotShown(DirSlots(View(g, d), parent));
  }

  lemma FindsEntry(g: Geo, d: seq<byte>, dirs: set<nat>, parent: nat, raw: RawName)
    requires Writable(g, d, dirs, parent, raw)
    ensures FindEntry(g, d, parent, raw)
            == Ok(Found(PlaceOf(g, d, parent, raw), Get(Before(g, d, dirs)[parent], OldName(g, d, parent, raw))))
    ensures !IsDotName(OldName(g, d, parent, raw))
    ensures var entry := Get(Before(g, d, dirs)[parent], OldName(g, d, parent, raw));
            IsSubdir(Before(g, d, dirs), parent, OldName(g, d, parent, raw)) <==> entry.Some? && entry.value.IsDir()
  {
    OldNameIsNotDot(g, d, parent, raw);
    FindEntryView(g, d, parent, raw);
  }

  /** Overwriting a directory is refused before anything is touched. */
  lemma WriteToSubdir(g: Geo, d: seq<byte>, dirs: set<nat>, parent: nat, raw: RawName, content: seq<byte>)
    requires Writable(g, d, dirs, parent, raw) && IsSubdir(Before(g, d, dirs), parent, OldName(g, d, parent, raw))
    ensures WriteInDir(g, d, parent, raw, content) == Outcome(Err(NotAFile), d)
  {
    FindsEntry(g, d, dirs, parent, raw);
  }

  /** What is left to do once the content is stored, if it could be stored. */
  lemma WriteInDirIs(g: Geo, d: seq<byte>, dirs: set<nat>, parent: nat, raw: RawName, content: seq<byte>)
    requires Writable(g, d, dirs, parent, raw)
    requires !IsSubdir(Before(g, d, dirs), parent, OldName(g, d, parent, raw))
    ensures var name := OldName(g, d, parent, raw);
            var o := WriteInDir(g, d, parent, raw, content);
            if !Enough(g, d, dirs, parent, name, content) then
              o == Outcome(Err(NoSpaceLeft), ReleasedDisk(g, d, dirs, parent, name))
            else
              var used := UsedBy(g, d, dirs, parent, name, content);
              var d2 := StoredDisk(g, d, dirs, parent, name, content);
              First(used) < U32 && Layout(g, |d2|)
              && o == EnterSlot(g, d2, parent, PlaceOf(g, d2, parent, raw), FileSlot(raw, First(used), |content| % U32))
  {
    var name := OldName(g, d, parent, raw);
    FindsEntry(g, d, dirs, parent, raw);
    ReleasedState(g, d, dirs, parent, name);
    StoredState(g, d, dirs, parent, name, content);
    WriteInDirUnfold(g, d, parent, raw, content,
                     Found(PlaceOf(g, d, parent, raw), Get(Before(g, d, dirs)[parent], name)));
    if Enough(g, d, dirs, parent, name, content) {
      PlaceKept(g, d, dirs, parent, name, content, raw);
    }
  }

  // ---------- outcome ----------

  function NewSlot(raw: RawName, used: seq<nat>, content: seq<byte>): Slot
    requires First(used) < U32
  {
    FileSlot(raw, First(used), |content| % U32)
  }

  lemma NewSlotCarries(raw: RawName, used: seq<nat>, content: seq<byte>)
    requires Clean(raw) && raw[0] != DELETED && First(used) < U32
    ensures Carries(NewSlot(raw, used, content), raw, NewEntry(raw, used, content))
  {
    FileSlotRoundTrip(raw, First(used), |content| % U32);
    FileSlotFields(raw, First(used), |content| % U32);
    assert NewSlot(raw, used, content)[0] == RawOf(NewSlot(raw, used, content))[0];
  }

  /** The parent has a slot with the raw name, or a free one. */
  ghost predicate HasRoom(g: Geo, d: seq<byte>, parent: nat, raw: RawName)
    requires Layout(g, |d|)
  {
    HasMatch(DirSlots(View(g, d), parent), raw) || HasFreeSlot(DirGrid(View(g, d), parent))
  }

  /** A create that finds no room is one of a name that the parent does not show. */
  lemma NoRoomNoName(g: Geo, d: seq<byte>, dirs: set<nat>, parent: nat, raw: RawName)
    requires Writable(g, d, dirs, parent, raw) && !HasRoom(g, d, parent, raw)
    ensures OldName(g, d, parent, raw) == Decode(raw) && Decode(raw) !in Before(g, d, dirs)[parent]
  {
    PlaceExists(DirGrid(View(g, d), parent), raw);
    RawSearchIsLookup(DirGrid(View(g, d), parent), raw);
  }

  /** A name that starts with NUL is shown by no directory. */
  lemma NulReplacesNothing(g: Geo, d: seq<byte>, dirs: set<nat>, parent: nat, raw: RawName)
    requires Writable(g, d, dirs, parent, raw) && raw[0] == END_MARK
    ensures OldName(g, d, parent, raw) == Decode(raw) && Decode(raw) !in Before(g, d, dirs)[parent]
  {
    NulIsNotFound(DirGrid(View(g, d), parent), raw);
    RawSearchIsLookup(DirGrid(View(g, d), parent), raw);
  }

  /** Entering the slot after the store: the directory rows are those of before the write. */
  lemma EnterAfterStore(g: Geo, d: seq<byte>, dirs: set<nat>, parent: nat, raw: RawName, content: seq<byte>, s: Slot)
    requires Writable(g, d, dirs, parent, raw)
    requires !IsSubdir(Before(g, d, dirs), parent, OldName(g, d, parent, raw))
    requires Enough(g, d, dirs, parent, OldName(g, d, parent, raw), content)
    ensures var d2 := StoredDisk(g, d, dirs, parent, OldName(g, d, parent, raw), content);
            var v2 := StoredVol(g, d, dirs, parent, OldName(g, d, parent, raw), content);
            && Layout(g, |d2|) && View(g, d2) == v2
            && var ch := ChainFrom(v2.fat, parent);
            var o := EnterSlot(g, d2, parent, PlaceOf(g, d2, parent, raw), s);
            && AllInRange(v2.fat, ch)
            && match UpdateGrid(DirGrid(View(g, d), parent), raw, s)
               case None => o == Outcome(Err(NoSpaceLeft), d2)
               case Some(grid) => o.result == Ok(()) && DirEffect(g, d2, o.disk, ch, grid)
  {
    var name := OldName(g, d, parent, raw);
    OldNameIsNotDot(g, d, parent, raw);
    StoredState(g, d, dirs, parent, name, content);
    StoredGrids(g, d, dirs, parent, name, content, parent);
    EnterSlotEffect(g, StoredDisk(g, d, dirs, parent, name, content), parent, raw, s);
  }

  lemma UpdateNeedsRoom(g: Geo, d: seq<byte>, parent: nat, raw: RawName, s: Slot)
    requires Layout(g, |d|)
    ensures UpdateGrid(DirGrid(View(g, d), parent), raw, s).Some? <==> HasRoom(g, d, parent, raw)
  {
    PlaceExists(DirGrid(View(g, d), parent), raw);
  }

  /** The exact success condition, and the only other answer. */
  lemma WriteSucceedsIff(g: Geo, d: seq<byte>, dirs: set<nat>, parent: nat, raw: RawName, content: seq<byte>)
    requires Writable(g, d, dirs, parent, raw)
    requires !IsSubdir(Before(g, d, dirs), parent, OldName(g, d, parent, raw))
    ensures WriteInDir(g, d, parent, raw, content).result
            == if Enough(g, d, dirs, parent, OldName(g, d, parent, raw), content) && HasRoom(g, d, parent, raw)
               then Ok(()) else Err(NoSpaceLeft)
  {
    var name := OldName(g, d, parent, raw);
    WriteInDirIs(g, d, dirs, parent, raw, content);
    if Enough(g, d, dirs, parent, name, content) {
      var used := UsedBy(g, d, dirs, parent, name, content);
      EnterAfterStore(g, d, dirs, parent, raw, content, NewSlot(raw, used, content));
      UpdateNeedsRoom(g, d, parent, raw, NewSlot(raw, used, content));
    }
  }
}

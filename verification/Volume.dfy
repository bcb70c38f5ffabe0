/** A well-formed volume, and what each stage of a write does to it. */
module Volume {
  import opened Wrappers
  import opened Bytes
  import opened DirEntries
  import opened Chains
  import opened Geometry
  import opened Tables
  import opened Clusters
  import opened Directories
  import opened DirUpdates
  import opened Engine
  import opened Refinement
  import opened Tree

  // ---------- the abstract state ----------

  /** The rows of the directory that starts at cluster `c`. */
  function DirGrid(v: Vol, c: nat): Grid
    requires |v.data| == |v.fat|
  {
    ChainFromSpec(v.fat, c);
    GridOf(v.data, ChainFrom(v.fat, c))
  }

  function DirSlots(v: Vol, c: nat): seq<Slot>
    requires |v.data| == |v.fat|
  {
    Live(DirGrid(v, c))
  }

  ghost function CatalogOf(v: Vol, dirs: set<nat>): (cat: Catalog)
    requires |v.data| == |v.fat|
    ensures cat.Keys == dirs
  {
    map c | c in dirs :: ByName(DirSlots(v, c))
  }

  /** The image is laid out properly, and `dirs` are the first clusters of an orderly tree of directories. */
  ghost predicate WellFormed(g: Geo, d: seq<byte>, dirs: set<nat>) {
    && Layout(g, |d|)
    && TreeOk(View(g, d).fat, g.clusterSize, g.root, CatalogOf(View(g, d), dirs))
    && forall c :: c in dirs ==> Orderly(DirGrid(View(g, d), c))
  }

  lemma WellFormedOf(g: Geo, d: seq<byte>, dirs: set<nat>)
    requires Layout(g, |d|)
    requires TreeOk(View(g, d).fat, g.clusterSize, g.root, CatalogOf(View(g, d), dirs))
    requires forall c :: c in dirs ==> Orderly(DirGrid(View(g, d), c))
    ensures WellFormed(g, d, dirs)
  {
  }

  // ---------- effects ----------

  /** The reserved area, and so the parsed header, does not change; equal table copies stay equal. */
  ghost predicate HeaderKept(g: Geo, d: seq<byte>, d': seq<byte>)
    requires Layout(g, |d|)
  {
    && |d'| == |d|
    && (forall k :: 0 <= k < |d| && k < g.fatStart ==> d'[k] == d[k])
    && (Mirrored(g, d) ==> Mirrored(g, d'))
  }

  lemma HeaderKeptRefl(g: Geo, d: seq<byte>)
    requires Layout(g, |d|)
    ensures HeaderKept(g, d, d)
  {
  }

  lemma HeaderKeptTrans(g: Geo, d: seq<byte>, d1: seq<byte>, d2: seq<byte>)
    requires Layout(g, |d|) && HeaderKept(g, d, d1) && HeaderKept(g, d1, d2)
    ensures HeaderKept(g, d, d2)
  {
  }

  /** The volume becomes `v`, and the header is kept. */
  ghost predicate Effect(g: Geo, d: seq<byte>, d': seq<byte>, v: Vol)
    requires Layout(g, |d|)
  {
    HeaderKept(g, d, d') && View(g, d') == v
  }

  lemma TablesBeforeData(g: Geo, len: nat)
    requires Layout(g, len)
    ensures g.fatStart <= g.dataStart
  {
    CopyBounds(g, len, 0, g.numFats);
  }

  /** Freeing the old chain of a file: its entries are cleared in every copy, and no other byte changes. */
  lemma ReleaseEffect(g: Geo, d: seq<byte>, entry: Option<DirEntry>)
    requires Layout(g, |d|)
    requires entry.Some? ==> FileOk(View(g, d).fat, g.clusterSize, entry.value)
    ensures var ch := if entry.Some? then ChainFrom(View(g, d).fat, entry.value.firstCluster) else [];
            var o := Release(g, d, entry);
            && AllInRange(View(g, d).fat, ch)
            && o.result == Ok(())
            && Effect(g, d, o.disk, Vol(Zero(View(g, d).fat, ch), View(g, d).data))
            && TablesOnly(g, d, o.disk) && CopiesCleared(g, d, o.disk, ch)
            && (ch == [] ==> o.disk == d)
  {
    TablesBeforeData(g, |d|);
    if entry.Some? {
      var first := entry.value.firstCluster;
      ChainFromSpec(View(g, d).fat, first);
      if first >= FIRST_CLUSTER {
        FollowChainView(g, d, first);
        ClearEntriesEffect(g, d, ChainFrom(View(g, d).fat, first));
        ClearEntriesBytes(g, d, ChainFrom(View(g, d).fat, first));
      }
    }
  }

  function Needed(g: Geo, content: seq<byte>): nat {
    DivCeil(|content|, g.clusterSize)
  }

  lemma NeededIsZero(g: Geo, content: seq<byte>)
    requires g.clusterSize > 0
    ensures Needed(g, content) == 0 <==> content == []
    ensures |content| <= Needed(g, content) * g.clusterSize
  {
    DivCeilSpec(|content|, g.clusterSize);
  }

  /** Allocating and filling the new chain: all or nothing. */
  lemma StoreEffect(g: Geo, d: seq<byte>, content: seq<byte>)
    requires Layout(g, |d|)
    ensures var v := View(g, d);
            var o := Store(g, d, content);
            && (FreeCount(v.fat) < Needed(g, content) ==> o == Outcome(Err(NoSpaceLeft), d))
            && (FreeCount(v.fat) >= Needed(g, content) ==>
                  var used := FreeClusters(v.fat)[..Needed(g, content)];
                  && AllInRange(v.fat, used)
                  && o.result == Ok(if used == [] then 0 else used[0])
                  && Effect(g, d, o.disk, Vol(Link(v.fat, used), Fill(v.data, used, content, g.clusterSize))))
  {
    TablesBeforeData(g, |d|);
    NeededIsZero(g, content);
    if content != [] {
      AllocChainView(g, d, Needed(g, content));
      var o := AllocChain(g, d, Needed(g, content));
      if o.result.Ok? {
        var used := o.result.value;
        FillChainEffect(g, o.disk, used, content);
      }
      hide AllocChain, FillChain, View, Mirrored, FollowChain, FreeClusters, Fill;
    }
  }

  // ---------- slot writes ----------

  /** Only clusters of `ch` change, and they now hold the rows `grid`. */
  ghost predicate DirEffect(g: Geo, d: seq<byte>, d': seq<byte>, ch: seq<nat>, grid: Grid)
    requires Layout(g, |d|) && AllInRange(View(g, d).fat, ch)
  {
    && |d'| == |d|
    && Effect(g, d, d', Vol(View(g, d).fat, View(g, d').data))
    && |View(g, d').data| == |View(g, d).fat|
    && GridOf(View(g, d').data, ch) == grid
    && forall c :: 0 <= c < |View(g, d).data| && c !in ch ==> View(g, d').data[c] == View(g, d).data[c]
  }

  lemma GridUpdate(data: seq<seq<byte>>, ch: seq<nat>, i: nat, bytes: seq<byte>)
    requires Distinct(ch) && i < |ch| && forall k :: 0 <= k < |ch| ==> ch[k] < |data|
    ensures GridOf(data[ch[i] := bytes], ch) == GridOf(data, ch)[i := Chunks(bytes)]
  {
  }

  /** Bytes laid inside the `i`-th cluster of a directory change that row only. */
  lemma RowWriteEffect(g: Geo, d: seq<byte>, ch: seq<nat>, i: nat, o: nat, bytes: seq<byte>, row: Row)
    requires Layout(g, |d|) && AllInRange(View(g, d).fat, ch) && Distinct(ch) && i < |ch|
    requires o + |bytes| <= g.clusterSize
    requires Chunks(Splice(View(g, d).data[ch[i]], o, bytes)) == row
    ensures ClusterOff(g, ch[i]) + o + |bytes| <= |d|
    ensures DirEffect(g, d, Splice(d, ClusterOff(g, ch[i]) + o, bytes), ch, GridOf(View(g, d).data, ch)[i := row])
  {
    TablesBeforeData(g, |d|);
    assert InRange(View(g, d).fat, ch[i]);
    SpliceClusterEffect(g, d, ch[i], o, bytes);
    assert forall k :: 0 <= k < |ch| ==> InRange(View(g, d).fat, ch[k]);
    GridUpdate(View(g, d).data, ch, i, Splice(View(g, d).data[ch[i]], o, bytes));
  }

  lemma RowSize(g: Geo, d: seq<byte>, ch: seq<nat>, i: nat, a: nat)
    requires Layout(g, |d|) && AllInRange(View(g, d).fat, ch) && i < |ch|
    requires a < |GridOf(View(g, d).data, ch)[i]|
    ensures |View(g, d).data[ch[i]]| == g.clusterSize
    ensures a < g.clusterSize / SLOT_SIZE && SLOT_SIZE * a + SLOT_SIZE <= g.clusterSize
    ensures a + 1 < |GridOf(View(g, d).data, ch)[i]| ==> SLOT_SIZE * a + SLOT_SIZE < g.clusterSize
  {
    assert InRange(View(g, d).fat, ch[i]);
  }

  lemma SlotWriteEffect(g: Geo, d: seq<byte>, ch: seq<nat>, i: nat, a: nat, s: Slot)
    requires Layout(g, |d|) && AllInRange(View(g, d).fat, ch) && Distinct(ch) && i < |ch|
    requires a < |GridOf(View(g, d).data, ch)[i]|
    ensures var o := WriteEntry(d, SlotOffset(g, ch, i, a), s);
            && o.result == Ok(())
            && DirEffect(g, d, o.disk, ch, PutSlot(GridOf(View(g, d).data, ch), i, a, s))
  {
    RowSize(g, d, ch, i, a);
    ChunksSplice(View(g, d).data[ch[i]], a, s);
    RowWriteEffect(g, d, ch, i, SLOT_SIZE * a, s, PutRow(GridOf(View(g, d).data, ch)[i], a, s));
  }

  lemma MarkWriteEffect(g: Geo, d: seq<byte>, ch: seq<nat>, i: nat, a: nat)
    requires Layout(g, |d|) && AllInRange(View(g, d).fat, ch) && Distinct(ch) && i < |ch|
    requires a < |GridOf(View(g, d).data, ch)[i]|
    requires SLOT_SIZE * a + SLOT_SIZE < g.clusterSize
    ensures SlotOffset(g, ch, i, a) + SLOT_SIZE < |d|
    ensures var grid := GridOf(View(g, d).data, ch);
            DirEffect(g, d, Splice(d, SlotOffset(g, ch, i, a) + SLOT_SIZE, [END_MARK]), ch,
                      grid[i := MarkAfter(grid[i], a)])
  {
    RowSize(g, d, ch, i, a);
    ChunksMark(View(g, d).data[ch[i]], a);
    RowWriteEffect(g, d, ch, i, SLOT_SIZE * a + SLOT_SIZE, [END_MARK], MarkAfter(GridOf(View(g, d).data, ch)[i], a));
  }

  lemma DirEffectTrans(g: Geo, d: seq<byte>, d1: seq<byte>, d2: seq<byte>, ch: seq<nat>, grid1: Grid, grid2: Grid)
    requires Layout(g, |d|) && AllInRange(View(g, d).fat, ch)
    requires DirEffect(g, d, d1, ch, grid1) && DirEffect(g, d1, d2, ch, grid2)
    ensures DirEffect(g, d, d2, ch, grid2)
  {
  }

  /** The buffer after a slot was written over an end mark. */
  function EndWritten(d: seq<byte>, off: nat, s: Slot, clusterEnd: nat): (r: seq<byte>)
    requires off + SLOT_SIZE <= clusterEnd <= |d|
    ensures |r| == |d|
  {
    var d1 := Splice(d, off, s);
    if off + SLOT_SIZE < clusterEnd then Splice(d1, off + SLOT_SIZE, [END_MARK]) else d1
  }

  lemma SlotInCluster(g: Geo, d: seq<byte>, ch: seq<nat>, i: nat, a: nat)
    requires Layout(g, |d|) && AllInRange(View(g, d).fat, ch) && i < |ch|
    requires a < |GridOf(View(g, d).data, ch)[i]|
    ensures SlotOffset(g, ch, i, a) + SLOT_SIZE <= ClusterOff(g, ch[i]) + g.clusterSize <= |d|
    ensures SlotOffset(g, ch, i, a) + SLOT_SIZE < ClusterOff(g, ch[i]) + g.clusterSize
            <==> SLOT_SIZE * a + SLOT_SIZE < g.clusterSize
  {
    RowSize(g, d, ch, i, a);
    assert InRange(View(g, d).fat, ch[i]);
    ClusterBounds(g, |d|, ch[i]);
  }

  /** Writing over an end mark: the slot, then the mark after it unless the cluster ends there. */
  lemma EndWriteEffect(g: Geo, d: seq<byte>, ch: seq<nat>, i: nat, a: nat, s: Slot)
    requires Layout(g, |d|) && AllInRange(View(g, d).fat, ch) && Distinct(ch) && i < |ch|
    requires a < |GridOf(View(g, d).data, ch)[i]|
    requires SlotOffset(g, ch, i, a) + SLOT_SIZE <= ClusterOff(g, ch[i]) + g.clusterSize <= |d|
    ensures DirEffect(g, d, EndWritten(d, SlotOffset(g, ch, i, a), s, ClusterOff(g, ch[i]) + g.clusterSize),
                      ch, PutAtEnd(GridOf(View(g, d).data, ch), i, a, s))
  {
    var grid := GridOf(View(g, d).data, ch);
    SlotInCluster(g, d, ch, i, a);
    SlotWriteEffect(g, d, ch, i, a, s);
    if SLOT_SIZE * a + SLOT_SIZE < g.clusterSize {
      MarkedEffect(g, d, ch, i, a, s);
    } else {
      RowSize(g, d, ch, i, a);
      assert PutAtEnd(grid, i, a, s) == PutSlot(grid, i, a, s);
    }
  }

  lemma PutThenMark(grid: Grid, i: nat, a: nat, s: Slot)
    requires i < |grid| && a < |grid[i]|
    ensures var grid1 := PutSlot(grid, i, a, s);
            |grid1[i]| == |grid[i]| && grid1[i := MarkAfter(grid1[i], a)] == PutAtEnd(grid, i, a, s)
  {
  }

  lemma MarkedEffect(g: Geo, d: seq<byte>, ch: seq<nat>, i: nat, a: nat, s: Slot)
    requires Layout(g, |d|) && AllInRange(View(g, d).fat, ch) && Distinct(ch) && i < |ch|
    requires a < |GridOf(View(g, d).data, ch)[i]|
    requires SLOT_SIZE * a + SLOT_SIZE < g.clusterSize
    ensures var off := SlotOffset(g, ch, i, a);
            && off + SLOT_SIZE < |d|
            && DirEffect(g, d, Splice(Splice(d, off, s), off + SLOT_SIZE, [END_MARK]), ch,
               PutAtEnd(GridOf(View(g, d).data, ch), i, a, s))
  {
    var grid := GridOf(View(g, d).data, ch);
    var off := SlotOffset(g, ch, i, a);
    SlotInCluster(g, d, ch, i, a);
    SlotWriteEffect(g, d, ch, i, a, s);
    var d1 := WriteEntry(d, off, s).disk;
    MarkWriteEffect(g, d1, ch, i, a);
    PutThenMark(grid, i, a, s);
    DirEffectTrans(g, d, d1, Splice(d1, off + SLOT_SIZE, [END_MARK]), ch, PutSlot(grid, i, a, s),
                   PutAtEnd(grid, i, a, s));
  }
}

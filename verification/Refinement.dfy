/** On a usable image, the byte-level operations act on tables, clusters and directory rows. */
module Refinement {
  import opened Wrappers
  import opened Bytes
  import opened Names
  import opened DirEntries
  import opened Chains
  import opened Geometry
  import opened Tables
  import opened Clusters
  import opened Directories
  import opened Engine

  // ---------- walks ----------

  lemma {:induction false} FollowView(g: Geo, d: seq<byte>, c: nat, fuel: nat)
    requires Layout(g, |d|) && Follow(View(g, d).fat, c, fuel).Some?
    ensures FollowFrom(g, d, c, fuel) == Ok(Follow(View(g, d).fat, c, fuel).value)
    decreases fuel
  {
    var fat := View(g, d).fat;
    ReadFatEntryView(g, d, c);
    if fat[c] < EOC_MIN {
      FollowView(g, d, fat[c], fuel - 1);
    }
  }

  /** A terminated chain is followed to its end. */
  lemma FollowChainView(g: Geo, d: seq<byte>, c: nat)
    requires Layout(g, |d|) && ChainAt(View(g, d).fat, c).Some?
    ensures FollowChain(g, d, c) == Ok(ChainAt(View(g, d).fat, c).value)
  {
    FollowView(g, d, c, MAX_CHAIN);
  }

  // ---------- directory rows ----------

  function GridOf(data: seq<seq<byte>>, ch: seq<nat>): (grid: Grid)
    requires forall i :: 0 <= i < |ch| ==> ch[i] < |data|
    ensures |grid| == |ch|
  {
    seq(|ch|, i requires 0 <= i < |ch| => Chunks(data[ch[i]]))
  }

  lemma GridTail(data: seq<seq<byte>>, ch: seq<nat>)
    requires ch != [] && forall i :: 0 <= i < |ch| ==> ch[i] < |data|
    ensures GridOf(data, ch)[0] == Chunks(data[ch[0]])
    ensures GridOf(data, ch)[1..] == GridOf(data, ch[1..])
  {
  }

  /** Listing a chain of clusters lists the live slots of its rows. */
  lemma {:induction false} ListChainView(g: Geo, d: seq<byte>, ch: seq<nat>)
    requires Layout(g, |d|) && AllInRange(View(g, d).fat, ch)
    ensures ListChain(g, d, ch) == Ok(Listing(Live(GridOf(View(g, d).data, ch))))
    decreases |ch|
  {
    if ch != [] {
      assert InRange(View(g, d).fat, ch[0]);
      ReadClusterView(g, d, ch[0]);
      GridTail(View(g, d).data, ch);
      ListChainView(g, d, ch[1..]);
      ListingConcat(GridOf(View(g, d).data, ch)[0], Live(GridOf(View(g, d).data, ch[1..])));
    }
  }

  function SlotOffset(g: Geo, ch: seq<nat>, i: nat, a: nat): nat
    requires i < |ch| && FIRST_CLUSTER <= ch[i]
  {
    ClusterOff(g, ch[i]) + SLOT_SIZE * a
  }

  lemma ClusterRow(g: Geo, d: seq<byte>, c: nat)
    requires Layout(g, |d|) && InRange(View(g, d).fat, c)
    ensures WholeCluster(g, |d|, c) == Ok(ClusterOff(g, c)) && ClusterOff(g, c) + g.clusterSize <= |d|
    ensures d[ClusterOff(g, c)..ClusterOff(g, c) + g.clusterSize] == View(g, d).data[c]
    ensures ReadCluster(g, d, c) == Ok(View(g, d).data[c])
  {
    ReadClusterView(g, d, c);
    ClusterBounds(g, |d|, c);
  }

  function FoundAt(g: Geo, ch: seq<nat>, grid: Grid, at: Option<(nat, nat)>): Result<Found>
    requires |grid| == |ch| && forall i :: 0 <= i < |ch| ==> FIRST_CLUSTER <= ch[i]
    requires at.Some? ==> at.value.0 < |grid| && at.value.1 < |grid[at.value.0]|
  {
    match at
    case None => Ok(Found(None, None))
    case Some((i, a)) => Ok(Found(Some(SlotOffset(g, ch, i, a)), ParseSlot(grid[i][a])))
  }

  function Shift(at: Option<(nat, nat)>): Option<(nat, nat)> {
    match at case None => None case Some(p) => Some((p.0 + 1, p.1))
  }

  lemma FoundAtTail(g: Geo, ch: seq<nat>, grid: Grid, at: Option<(nat, nat)>)
    requires |grid| == |ch| > 0 && forall i :: 0 <= i < |ch| ==> FIRST_CLUSTER <= ch[i]
    requires at.Some? ==> at.value.0 < |grid| - 1 && at.value.1 < |grid[1..][at.value.0]|
    ensures FoundAt(g, ch, grid, Shift(at)) == FoundAt(g, ch[1..], grid[1..], at)
    ensures FreeAt(g, ch, grid, Shift(at)) == FreeAt(g, ch[1..], grid[1..], at)
  {
  }

  lemma FindInChainStep(g: Geo, d: seq<byte>, ch: seq<nat>, raw: RawName)
    requires Layout(g, |d|) && AllInRange(View(g, d).fat, ch) && ch != []
    ensures var grid := GridOf(View(g, d).data, ch);
            FindInChain(g, d, ch, raw)
            == match FindRow(grid[0], raw, 0)
               case Hit(a) => FoundAt(g, ch, grid, Some((0, a)))
               case Stopped => Ok(Found(None, None))
               case Passed => FindInChain(g, d, ch[1..], raw)
  {
    ClusterRow(g, d, ch[0]);
  }

  /** The raw search over clusters is the raw search over rows. */
  lemma {:induction false} FindInChainView(g: Geo, d: seq<byte>, ch: seq<nat>, raw: RawName)
    requires Layout(g, |d|) && AllInRange(View(g, d).fat, ch)
    ensures var grid := GridOf(View(g, d).data, ch);
            FindInChain(g, d, ch, raw) == FoundAt(g, ch, grid, FindGrid(grid, raw))
    decreases |ch|
  {
    hide Layout, View, GridOf, FindRow;
    if ch != [] {
      FindInChainStep(g, d, ch, raw);
      var grid := GridOf(View(g, d).data, ch);
      GridTail(View(g, d).data, ch);
      if FindRow(grid[0], raw, 0).Passed? {
        FindInChainView(g, d, ch[1..], raw);
        FoundAtTail(g, ch, grid, FindGrid(grid[1..], raw));
        assert FindGrid(grid, raw) == Shift(FindGrid(grid[1..], raw));
      }
    }
  }

  function FreeAt(g: Geo, ch: seq<nat>, grid: Grid, at: Option<(nat, nat)>): Result<FreeSlot>
    requires |grid| == |ch| && forall i :: 0 <= i < |ch| ==> FIRST_CLUSTER <= ch[i]
    requires at.Some? ==> at.value.0 < |grid| && at.value.1 < |grid[at.value.0]|
  {
    match at
    case None => Err(NoSpaceLeft)
    case Some((i, a)) =>
      Ok(FreeSlot(SlotOffset(g, ch, i, a), grid[i][a][0] == END_MARK, ClusterOff(g, ch[i]) + g.clusterSize))
  }

  lemma FreeInChainStep(g: Geo, d: seq<byte>, ch: seq<nat>)
    requires Layout(g, |d|) && AllInRange(View(g, d).fat, ch) && ch != []
    ensures var grid := GridOf(View(g, d).data, ch);
            FreeInChain(g, d, ch)
            == match FreeRow(grid[0], 0)
               case Some(a) => FreeAt(g, ch, grid, Some((0, a)))
               case None => FreeInChain(g, d, ch[1..])
  {
    ClusterRow(g, d, ch[0]);
  }

  /** The free-slot scan over clusters is the scan over rows. */
  lemma {:induction false} FreeInChainView(g: Geo, d: seq<byte>, ch: seq<nat>)
    requires Layout(g, |d|) && AllInRange(View(g, d).fat, ch)
    ensures var grid := GridOf(View(g, d).data, ch);
            FreeInChain(g, d, ch) == FreeAt(g, ch, grid, FreeGrid(grid))
    decreases |ch|
  {
    hide Layout, View, GridOf, FreeRow;
    if ch != [] {
      FreeInChainStep(g, d, ch);
      var grid := GridOf(View(g, d).data, ch);
      GridTail(View(g, d).data, ch);
      if FreeRow(grid[0], 0).None? {
        FreeInChainView(g, d, ch[1..]);
        FoundAtTail(g, ch, grid, FreeGrid(grid[1..]));
        assert FreeGrid(grid) == Shift(FreeGrid(grid[1..]));
      } else {
        assert FreeGrid(grid) == Some((0, FreeRow(grid[0], 0).value));
      }
    }
  }

  // ---------- file contents ----------

  lemma ReadChainStep(g: Geo, d: seq<byte>, ch: seq<nat>, n: nat)
    requires Layout(g, |d|) && AllInRange(View(g, d).fat, ch) && n > 0 && ch != []
    ensures var head := View(g, d).data[ch[0]][..Min(n, g.clusterSize)];
            && ReadChain(g, d, ch, n)
               == (if n <= g.clusterSize then Ok(head) else Prepend(head, ReadChain(g, d, ch[1..], n - g.clusterSize)))
            && Gather(View(g, d).data, ch, n, g.clusterSize)
               == (if n <= g.clusterSize then head
                 else head + Gather(View(g, d).data, ch[1..], n - g.clusterSize, g.clusterSize))
  {
    ClusterRow(g, d, ch[0]);
    if n <= g.clusterSize {
      assert Gather(View(g, d).data, ch[1..], 0, g.clusterSize) == [];
    }
  }

  lemma {:induction false} ReadChainView(g: Geo, d: seq<byte>, ch: seq<nat>, n: nat)
    requires Layout(g, |d|) && AllInRange(View(g, d).fat, ch) && n > 0
    ensures ReadChain(g, d, ch, n) == Ok(Gather(View(g, d).data, ch, n, g.clusterSize))
    decreases |ch|
  {
    if ch != [] {
      ReadChainStep(g, d, ch, n);
      var take := Min(n, g.clusterSize);
      if take < n {
        ReadChainView(g, d, ch[1..], n - take);
      }
    }
  }

  // ---------- allocation ----------

  lemma ScanFreeStep(g: Geo, d: seq<byte>, c: nat, needed: nat)
    requires Layout(g, |d|) && c <= Top(g, |d|) && needed > 0
    ensures ScanFree(g, d, c, Top(g, |d|), needed)
            == if View(g, d).fat[c] == 0 then Prepend([c], ScanFree(g, d, c + 1, Top(g, |d|), needed - 1))
               else ScanFree(g, d, c + 1, Top(g, |d|), needed)
  {
    ReadFatEntryView(g, d, c);
  }

  lemma TakeCons(c: nat, rest: seq<nat>, n: nat)
    requires n > 0
    ensures [c] + rest[..Min(n - 1, |rest|)] == ([c] + rest)[..Min(n, |rest| + 1)]
  {
  }

  /** The scan collects the first free clusters, as many as needed if there are that many. */
  lemma {:induction false} ScanFreeView(g: Geo, d: seq<byte>, c: nat, needed: nat)
    requires Layout(g, |d|)
    ensures ScanFree(g, d, c, Top(g, |d|), needed) == Ok(FirstOf(FreeFrom(View(g, d).fat, c), needed))
    decreases Top(g, |d|) + 1 - c
  {
    if c <= Top(g, |d|) && needed > 0 {
      var fat := View(g, d).fat;
      ScanFreeStep(g, d, c, needed);
      ScanFreeView(g, d, c + 1, if fat[c] == 0 then needed - 1 else needed);
      FirstOfStep(fat, c, needed);
    }
  }

  function FirstOf(s: seq<nat>, n: nat): seq<nat> {
    s[..Min(n, |s|)]
  }

  lemma FirstOfStep(fat: Fat, c: nat, n: nat)
    requires c < |fat| && n > 0
    ensures FirstOf(FreeFrom(fat, c), n)
            == if fat[c] == 0 then [c] + FirstOf(FreeFrom(fat, c + 1), n - 1) else FirstOf(FreeFrom(fat, c + 1), n)
  {
    TakeCons(c, FreeFrom(fat, c + 1), n);
  }

  /** Allocation is all or nothing and first fit; and following the chain from its first cluster gives back the clusters
      allocated, if a reader gets to its end. */
  lemma AllocChainView(g: Geo, d: seq<byte>, needed: nat)
    requires Layout(g, |d|) && needed > 0
    ensures var fat := View(g, d).fat;
            var o := AllocChain(g, d, needed);
            && (FreeCount(fat) < needed ==> o == Outcome(Err(NoSpaceLeft), d))
            && (FreeCount(fat) >= needed ==>
                  var found := FreeClusters(fat)[..needed];
                  && o.result == Ok(found) && AllInRange(fat, found)
                  && TableEffect(g, d, o.disk, Link(fat, found))
                  && (needed <= MAX_CHAIN ==> FollowChain(g, o.disk, found[0]) == Ok(found)))
  {
    var fat := View(g, d).fat;
    MaxClusterIsTop(g, |d|);
    ScanFreeView(g, d, FIRST_CLUSTER, needed);
    if FreeCount(fat) >= needed {
      var found := FreeClusters(fat)[..needed];
      FirstFitIsLowest(fat, needed);
      LinkEntriesEffect(g, d, found);
      if needed <= MAX_CHAIN { LinkedIsFollowed(g, LinkEntries(g, d, found).disk, fat, found); }
    }
  }

  lemma LinkedIsFollowed(g: Geo, d: seq<byte>, fat: Fat, ch: seq<nat>)
    requires Layout(g, |d|) && ch != [] && Distinct(ch) && AllInRange(fat, ch) && |ch| <= MAX_CHAIN
    requires View(g, d).fat == Link(fat, ch)
    ensures FollowChain(g, d, ch[0]) == Ok(ch)
  {
    LinkMakesChain(fat, ch);
    ChainIsFollowed(Link(fat, ch), ch, MAX_CHAIN);
    FollowChainView(g, d, ch[0]);
  }
}

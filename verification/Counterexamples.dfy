/** Two more images on which writing is not what it seems: a full root, and room for more than 4096 clusters. */
module Counterexamples {
  import opened Wrappers
  import opened Bytes
  import opened Names
  import opened DirEntries
  import opened Chains
  import opened Geometry
  import opened Directories
  import opened DirUpdates
  import opened Engine
  import opened Volume
  import opened Writes
  import opened Outcomes
  import opened Frame
  import opened Theorems
  import opened Losses
  import opened Witness

  // ---------- a root filled with long-name slots ----------

  /** The blank image, with the sixteen slots of its root taken by long-name entries, which the readers skip. */
  function FullByteAt(i: nat): byte {
    if 1024 <= i < 1536 then if (i - 1024) % 32 == 11 then 0x0F else 0x42
    else ByteAt(i)
  }

  function Full(): (d: seq<byte>)
    ensures |d| == 2048
  {
    seq(2048, i requires 0 <= i < 2048 => FullByteAt(i))
  }

  lemma FullHeader()
    ensures ParseBpb(Full()).Ok? && GeoOf(ParseBpb(Full()).value) == GEO
    ensures Layout(GEO, |Full()|) && Top(GEO, |Full()|) == 3
  {
    BlankHeader();
    assert ParseBpb(Full()) == Ok(BpbParams(512, 1, 1, 1, 1, 2));
  }

  lemma FullTable()
    ensures Layout(GEO, |Full()|)
    ensures View(GEO, Full()).fat == [0, 0, EOC, 0]
    ensures ChainAt(View(GEO, Full()).fat, 2) == Some([2])
    ensures FreeCount(View(GEO, Full()).fat) == 1
  {
    FullHeader();
    BlankTable();
    var fat := View(GEO, Full()).fat;
    assert FatValue(GEO, Full(), 0) == 0 && FatValue(GEO, Full(), 1) == 0;
    assert FatValue(GEO, Full(), 2) == EOC && FatValue(GEO, Full(), 3) == 0;
    assert fat == [0, 0, EOC, 0];
  }

  lemma FullSlot(a: nat)
    requires a < 16 && Layout(GEO, |Full()|)
    ensures var row := Chunks(ClusterBytes(GEO, Full(), 2));
            |row| == 16 && (forall k :: 0 <= k < 32 ==> row[a][k] == if k == 11 then 0x0F else 0x42)
  {
    FullHeader();
    assert ClusterOff(GEO, 2) == 1024;
    var data := ClusterBytes(GEO, Full(), 2);
    var row := Chunks(data);
    forall k | 0 <= k < 32 ensures row[a][k] == if k == 11 then 0x0F else 0x42 {
      assert row[a][k] == data[32 * a + k] == Full()[1024 + (32 * a + k)];
      assert (32 * a + k) % 32 == k;
    }
  }

  lemma {:induction false} NothingShown(slots: seq<Slot>)
    requires forall j :: 0 <= j < |slots| ==> ParseSlot(slots[j]) == None
    ensures ByName(slots) == map[]
  {
    if slots != [] { NothingShown(slots[1..]); }
  }

  lemma FullRoot()
    ensures Layout(GEO, |Full()|)
    ensures var grid := DirGrid(View(GEO, Full()), 2);
            && !HasFreeSlot(grid) && Orderly(grid) && ByName(Live(grid)) == map[] && !HasMatch(Live(grid), RAW_A)
  {
    FullTable();
    var grid := DirGrid(View(GEO, Full()), 2);
    var row := Chunks(ClusterBytes(GEO, Full(), 2));
    assert grid == [row];
    FullSlot(0);
    forall a | 0 <= a < 16
      ensures row[a][0] == 0x42 && row[a][11] == 0x0F && row[a][1] == 0x42
    {
      FullSlot(a);
    }
    LiveRowFull(row);
    assert Live(grid) == row + Live([]);
    assert Live(grid) == row;
    forall j | 0 <= j < 16 ensures ParseSlot(row[j]) == None && !Matches(row[j], RAW_A) {
      LongSlot(row[j]);
    }
    NothingShown(row);
  }

  lemma LongSlot(s: Slot)
    requires s[0] == 0x42 && s[11] == 0x0F && s[1] == 0x42
    ensures ParseSlot(s) == None && !Matches(s, RAW_A)
  {
    assert RawOf(s)[1] == 0x42 && RAW_A[1] == 0x20;
  }

  lemma FullIsReady()
    ensures WellFormed(GEO, Full(), {2}) && Before(GEO, Full(), {2}) == map[2 := map[]]
    ensures Targets(GEO, Full(), {2}, "/A", 2, RAW_A)
    ensures Enough(GEO, Full(), {2}, 2, "A", OneByte()) && !HasRoom(GEO, Full(), 2, RAW_A)
    ensures FreeCount(View(GEO, Full()).fat) == 1 && Needed(GEO, OneByte()) == 1
  {
    FullTable();
    FullRoot();
    hide Full, View, Encode, Readable, ParseSlot, HasFreeSlot, HasMatch;
    assert CatalogOf(View(GEO, Full()), {2}) == map[2 := map[]];
    RootOnlyTree(View(GEO, Full()).fat, 512, 2);
    ReadyA(Full());
    assert Needed(GEO, OneByte()) == 1;
  }

  /** A create in that root answers NoSpaceLeft, with the last free cluster gone and no entry to show for it. */
  lemma FullDirectoryLeaks()
    ensures ParseBpb(Full()).Ok? && GeoOf(ParseBpb(Full()).value) == GEO
    ensures var o := WriteFile(GEO, Full(), "/A", OneByte());
            && WellFormed(GEO, Full(), {2}) && FreeCount(View(GEO, Full()).fat) == 1
            && o.result == Err(NoSpaceLeft) && o.disk != Full()
            && |o.disk| == 2048 && FreeCount(View(GEO, o.disk).fat) == 0
            && Before(GEO, o.disk, {2}) == map[2 := map[]]
  {
    FullHeader();
    FullIsReady();
    NameA();
    hide Full, View, WriteFile, Encode, Readable, ParseSlot, CatalogOf, Targets, Enough, HasRoom, Needed, WellFormed;
    TargetedWrite(GEO, Full(), {2}, "/A", 2, RAW_A, OneByte());
    WritableFull();
    FullDirectory(GEO, Full(), {2}, 2, RAW_A, OneByte());
    RefusalTouchesNothing(GEO, Full(), {2}, 2, RAW_A, OneByte());
  }

  lemma WritableFull()
    ensures Writable(GEO, Full(), {2}, 2, RAW_A)
  {
    FullIsReady();
  }

  // ---------- room for more than 4096 clusters ----------

  /** A table of 33 sectors and 4222 clusters of 512 bytes: an empty root, and 4221 free ones. */
  function BigByteAt(i: nat): byte {
    if i == 36 then 33 else ByteAt(i)
  }

  const BIG_SIZE: nat := 2179072

  function Big(): (d: seq<byte>)
    ensures |d| == BIG_SIZE
  {
    seq(BIG_SIZE, i requires 0 <= i < BIG_SIZE => BigByteAt(i))
  }

  const BIG_GEO: Geo := Geo(512, 16896, 1, 17408, 512, 2)

  lemma BigHeader()
    ensures ParseBpb(Big()).Ok? && GeoOf(ParseBpb(Big()).value) == BIG_GEO
    ensures Layout(BIG_GEO, |Big()|) && Top(BIG_GEO, |Big()|) == 4223
  {
    assert ParseBpb(Big()) == Ok(BpbParams(512, 1, 1, 1, 33, 2));
  }

  lemma {:induction false} AllFreeFrom(fat: Fat, c: nat)
    requires c <= |fat| && forall k :: c <= k < |fat| ==> fat[k] == 0
    ensures |FreeFrom(fat, c)| == |fat| - c
    decreases |fat| - c
  {
    if c < |fat| { AllFreeFrom(fat, c + 1); }
  }

  lemma BigTable()
    ensures Layout(BIG_GEO, |Big()|)
    ensures var fat := View(BIG_GEO, Big()).fat;
            ChainAt(fat, 2) == Some([2]) && FreeCount(fat) == 4221
  {
    BigHeader();
    var fat := View(BIG_GEO, Big()).fat;
    forall c | 0 <= c < |fat| ensures fat[c] == if c == 2 then EOC else 0 {
      assert fat[c] == FatValue(BIG_GEO, Big(), c);
      BigEntry(c);
    }
    AllFreeFrom(fat, 3);
    assert FreeFrom(fat, 2) == FreeFrom(fat, 3);
    ChainIsFollowed(fat, [2], MAX_CHAIN);
  }

  lemma BigEntry(c: nat)
    requires Layout(BIG_GEO, |Big()|) && c <= Top(BIG_GEO, |Big()|)
    ensures FatValue(BIG_GEO, Big(), c) == if c == 2 then EOC else 0
  {
    BigHeader();
    var d := Big();
    var at := 512 + 4 * c;
    assert d[at] == BigByteAt(at) && d[at + 1] == BigByteAt(at + 1);
    assert d[at + 2] == BigByteAt(at + 2) && d[at + 3] == BigByteAt(at + 3);
  }

  lemma BigRoot()
    ensures Layout(BIG_GEO, |Big()|)
    ensures var grid := DirGrid(View(BIG_GEO, Big()), 2);
            && HasFreeSlot(grid) && Live(grid) == [] && Orderly(grid)
  {
    BigTable();
    BigHeader();
    var grid := DirGrid(View(BIG_GEO, Big()), 2);
    var data := ClusterBytes(BIG_GEO, Big(), 2);
    assert grid == [Chunks(data)];
    assert ClusterOff(BIG_GEO, 2) == 17408;
    assert data[0] == Big()[17408] == 0;
    assert |grid[0]| == 16 && grid[0][0][0] == END_MARK;
    LiveRowIs(grid[0], 0);
    assert IsFree(grid[0][0]);
  }

  function LongContent(): (s: seq<byte>)
    ensures |s| == 2097664
  {
    Zeros(2097664)
  }

  lemma BigIsWellFormed()
    ensures WellFormed(BIG_GEO, Big(), {2}) && Before(BIG_GEO, Big(), {2}) == map[2 := map[]]
  {
    BigTable();
    BigRoot();
    hide Big, View;
    assert CatalogOf(View(BIG_GEO, Big()), {2}) == map[2 := map[]];
    RootOnlyTree(View(BIG_GEO, Big()).fat, 512, 2);
  }

  lemma BigReady()
    ensures Targets(BIG_GEO, Big(), {2}, "/A", 2, RAW_A)
  {
    BigIsWellFormed();
    NameA();
    PathA();
    hide Big, View, Encode, Readable, ParseSlot, WellFormed;
    ReadyTargets(BIG_GEO, Big(), {2}, "/A");
  }

  lemma LongNeeded()
    ensures Needed(BIG_GEO, LongContent()) == 4097
  {
  }

  lemma BigSucceeds()
    ensures Succeeds(BIG_GEO, Big(), {2}, 2, RAW_A, LongContent())
  {
    BigReady();
    BigIsWellFormed();
    BigTable();
    BigRoot();
    LongNeeded();
    hide Big, View, WellFormed, LongContent, Needed;
    assert HasRoom(BIG_GEO, Big(), 2, RAW_A);
  }

  /** A write of 4097 clusters answers Ok, and reading gives its first 4096 clusters. */
  lemma LongFileIsCut()
    ensures ParseBpb(Big()).Ok? && GeoOf(ParseBpb(Big()).value) == BIG_GEO
    ensures var o := WriteFile(BIG_GEO, Big(), "/A", LongContent());
            o.result == Ok(()) && ReadFileByPath(BIG_GEO, o.disk, "/A") == Ok(Some(LongContent()[..2097152]))
  {
    BigHeader();
    BigReady();
    BigSucceeds();
    LongNeeded();
    NameA();
    PathA();
    hide Big, WriteFile, ReadFileByPath, Encode, Readable, Succeeds, LongContent;
    LongFileReadsShort(BIG_GEO, Big(), {2}, "/A", 2, RAW_A, LongContent());
  }
}

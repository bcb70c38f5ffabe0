/** The kernel's demo image: chains that end in 0x0FFFFFF8, a file with an extension, and an empty sub-directory. */
module Demo {
  import opened Wrappers
  import opened Bytes
  import opened Names
  import opened NameRules
  import opened DirEntries
  import opened Chains
  import opened Geometry
  import opened Clusters
  import opened Directories
  import opened DirUpdates
  import opened Paths
  import opened Engine
  import opened Tree
  import opened Volume
  import opened Lookup
  import opened Writes
  import opened Outcomes
  import opened Theorems
  import opened Promises
  import opened Witness

  /** Ten sectors: the header, one table, the root with HELLO.TXT in cluster 3 and DIR in cluster 4, and five bytes of
      text. */
  function DemoByte(i: nat): byte {
    if i == 12 || i == 44 then 2
    else if i == 13 || i == 14 || i == 16 || i == 36 then 1
    else if 520 <= i < 532 then (if i % 4 == 0 then 0xF8 else if i % 4 == 3 then 0x0F else 0xFF)
    else if 1024 <= i < 1056 then HelloByte(i - 1024)
    else if 1056 <= i < 1088 then DirByte(i - 1056)
    else if 1536 <= i < 1541 then Text()[i - 1536]
    else 0
  }

  /** `HELLO`. */
  function Text(): (s: seq<byte>)
    ensures |s| == 5
  {
    [0x48, 0x45, 0x4C, 0x4C, 0x4F]
  }

  const RAW_HELLO: RawName := [0x48, 0x45, 0x4C, 0x4C, 0x4F, 0x20, 0x20, 0x20, 0x54, 0x58, 0x54]
  const RAW_DIR: RawName := [0x44, 0x49, 0x52, 0x20, 0x20, 0x20, 0x20, 0x20, 0x20, 0x20, 0x20]

  function HelloByte(k: nat): byte {
    if k < 11 then RAW_HELLO[k] else if k == 11 then 0x20 else if k == 26 then 3 else if k == 28 then 5 else 0
  }

  function DirByte(k: nat): byte {
    if k < 11 then RAW_DIR[k] else if k == 11 then 0x10 else if k == 26 then 4 else 0
  }

  function Image(): (d: seq<byte>)
    ensures |d| == 5120
  {
    seq(5120, i requires 0 <= i < 5120 => DemoByte(i))
  }

  lemma ImageHeader()
    ensures ParseBpb(Image()).Ok? && GeoOf(ParseBpb(Image()).value) == GEO
    ensures Layout(GEO, |Image()|) && Top(GEO, |Image()|) == 9
  {
    assert ParseBpb(Image()) == Ok(BpbParams(512, 1, 1, 1, 1, 2));
  }

  lemma EntryIs(c: nat)
    requires c <= 9
    ensures Layout(GEO, |Image()|) && Top(GEO, |Image()|) == 9
    ensures FatValue(GEO, Image(), c) == if 2 <= c <= 4 then 0x0FFF_FFF8 else 0
  {
    ImageHeader();
    var at := 512 + 4 * c;
    EntryBytes(c);
    assert Image()[at] == DemoByte(at) && Image()[at + 1] == DemoByte(at + 1);
    assert Image()[at + 2] == DemoByte(at + 2) && Image()[at + 3] == DemoByte(at + 3);
    hide DemoByte, Image;
  }

  lemma EntryBytes(c: nat)
    requires c <= 9
    ensures var at := 512 + 4 * c;
            if 2 <= c <= 4
            then DemoByte(at) == 0xF8 && DemoByte(at + 1) == DemoByte(at + 2) == 0xFF && DemoByte(at + 3) == 0x0F
            else DemoByte(at) == DemoByte(at + 1) == DemoByte(at + 2) == DemoByte(at + 3) == 0
  {
    var at := 512 + 4 * c;
    assert at % 4 == 0 && (at + 1) % 4 == 1 && (at + 2) % 4 == 2 && (at + 3) % 4 == 3;
  }

  lemma ImageTable(c: nat)
    requires 2 <= c <= 4
    ensures Layout(GEO, |Image()|) && |View(GEO, Image()).fat| == 10
    ensures ChainAt(View(GEO, Image()).fat, c) == Some([c])
  {
    ImageHeader();
    EntryIs(c);
    assert View(GEO, Image()).fat[c] == FatValue(GEO, Image(), c);
  }

  /** The row of cluster `c`. */
  function RowOf(c: nat): (row: Row)
    requires 2 <= c <= 4
    ensures |row| == 16
  {
    ImageHeader();
    Chunks(ClusterBytes(GEO, Image(), c))
  }

  lemma ByteOf(c: nat, a: nat, k: nat)
    requires 2 <= c <= 4 && a < 16 && k < 32
    ensures RowOf(c)[a][k] == DemoByte(512 * c + 32 * a + k)
  {
    ImageHeader();
    assert ClusterOff(GEO, c) == 512 * c;
    assert RowOf(c)[a][k] == ClusterBytes(GEO, Image(), c)[32 * a + k] == Image()[512 * c + (32 * a + k)];
  }

  lemma GridIs(c: nat)
    requires 2 <= c <= 4
    ensures Layout(GEO, |Image()|) && DirGrid(View(GEO, Image()), c) == [RowOf(c)]
  {
    ImageTable(c);
    ImageHeader();
    assert View(GEO, Image()).data[c] == ClusterBytes(GEO, Image(), c);
  }

  const HELLO: DirEntry := DirEntry("HELLO.TXT", FILE_ATTRIBUTES, 3, 5)
  const DIR: DirEntry := DirEntry("DIR", Attributes(false, false, false, false, true, false), 4, 0)

  lemma HelloName()
    ensures Decode(RAW_HELLO) == "HELLO.TXT"
  {
    hide Decode;
    DecodeIs(RAW_HELLO, "HELLO", "TXT");
    assert "HELLO" + "." + "TXT" == "HELLO.TXT";
  }

  lemma DirName()
    ensures Decode(RAW_DIR) == "DIR"
  {
    hide Decode;
    DecodeIs(RAW_DIR, "DIR", "");
  }

  lemma NamesRead()
    ensures Decode(RAW_HELLO) == "HELLO.TXT" && Clean(RAW_HELLO)
    ensures Decode(RAW_DIR) == "DIR" && Clean(RAW_DIR)
  {
    hide Decode;
    HelloName();
    DirName();
  }

  /** A slot whose bytes are given parses to the entry that they spell. */
  lemma SlotParses(s: Slot, raw: RawName, cluster: nat, size: nat)
    requires s[..11] == raw && raw[0] != END_MARK && raw[0] != DELETED && (s[11] == 0x20 || s[11] == 0x10)
    requires ClusterField(s) == cluster && Le32(s, 28) == size
    ensures ParseSlot(s)
            == Some(DirEntry(Decode(raw), Attributes(false, false, false, false, s[11] == 0x10, s[11] == 0x20), cluster,
                             size))
  {
    assert s[0] == raw[0];
  }

  lemma HelloSlot()
    ensures RawOf(RowOf(2)[0]) == RAW_HELLO && ParseSlot(RowOf(2)[0]) == Some(HELLO)
  {
    var s: Slot := RowOf(2)[0];
    forall k | 0 <= k < 32 ensures s[k] == HelloByte(k) {
      ByteOf(2, 0, k);
      assert 512 * 2 + 32 * 0 + k == 1024 + k;
    }
    NamesRead();
    hide RowOf, DemoByte, Decode;
    assert s[..11] == RAW_HELLO;
    SlotParses(s, RAW_HELLO, 3, 5);
  }

  lemma DirSlot()
    ensures RawOf(RowOf(2)[1]) == RAW_DIR && ParseSlot(RowOf(2)[1]) == Some(DIR)
  {
    var s: Slot := RowOf(2)[1];
    forall k | 0 <= k < 32 ensures s[k] == DirByte(k) {
      ByteOf(2, 1, k);
      assert 512 * 2 + 32 * 1 + k == 1056 + k;
    }
    NamesRead();
    hide RowOf, DemoByte, Decode;
    assert s[..11] == RAW_DIR;
    SlotParses(s, RAW_DIR, 4, 0);
  }

  lemma UpperNames()
    ensures Upper("HELLO.TXT") == "HELLO.TXT" && Upper("DIR") == "DIR"
  {
  }

  lemma RootNames()
    ensures var live := Live([RowOf(2)]);
            && live == RowOf(2)[..2] && NamesClean(live) && Listing(live) == [HELLO, DIR]
            && ByName(live) == map["DIR" := DIR, "HELLO.TXT" := HELLO]
  {
    var row := RowOf(2);
    HelloSlot();
    DirSlot();
    NamesRead();
    UpperNames();
    ByteOf(2, 2, 0);
    LiveRowIs(row, 2);
    hide RowOf, ParseSlot, Clean, Upper, LiveRow;
    var live := row[..2];
    assert live[2..] == [] && live[1..][1..] == live[2..];
    assert ByName(live[2..]) == map[] && Listing(live[2..]) == [];
    assert ByName(live[1..]) == map["DIR" := DIR] && Listing(live[1..]) == [DIR];
  }

  lemma SubIsEmpty()
    ensures Live([RowOf(4)]) == []
  {
    ByteOf(4, 0, 0);
    LiveRowIs(RowOf(4), 0);
  }

  ghost predicate IsDemo(cat: Catalog) {
    cat.Keys == {2, 4} && cat[2] == map["DIR" := DIR, "HELLO.TXT" := HELLO] && cat[4] == map[]
  }

  lemma DemoCatalog()
    ensures Layout(GEO, |Image()|) && IsDemo(CatalogOf(View(GEO, Image()), {2, 4}))
    ensures Orderly(DirGrid(View(GEO, Image()), 2)) && Orderly(DirGrid(View(GEO, Image()), 4))
  {
    GridIs(2);
    GridIs(4);
    RootNames();
    SubIsEmpty();
    hide Image, View, RowOf, Live, DirGrid, NamesClean, Layout;
    assert ByName([]) == map[];
  }

  lemma DemoEntries(fat: Fat, cat: Catalog)
    requires ChainAt(fat, 2) == Some([2]) && ChainAt(fat, 3) == Some([3]) && ChainAt(fat, 4) == Some([4]) && IsDemo(cat)
    ensures EntriesOk(fat, 512, 2, cat) && SubdirsOnce(cat)
  {
    assert forall dir, name :: HasEntry(cat, dir, name) ==> dir == 2 && (name == "HELLO.TXT" || name == "DIR");
    assert ChainFrom(fat, 3) == [3];
  }

  lemma DemoClaims(fat: Fat, cat: Catalog)
    requires ChainAt(fat, 2) == Some([2]) && ChainAt(fat, 3) == Some([3]) && ChainAt(fat, 4) == Some([4]) && IsDemo(cat)
    ensures ClaimsApart(fat, cat)
  {
    forall c | IsClaim(cat, c) ensures ClaimChain(fat, cat, c) == if c.DirClaim? then [c.dir] else [3] {
      if c.FileClaim? { assert HasEntry(cat, c.dir, c.name) && c.dir == 2; }
    }
    forall c | IsClaim(cat, c) && c.FileClaim? ensures c == FileClaim(2, "HELLO.TXT") {
      assert HasEntry(cat, c.dir, c.name) && c.dir == 2;
    }
    assert forall c :: IsClaim(cat, c) && c.DirClaim? ==> c.dir == 2 || c.dir == 4;
    hide ClaimChain, IsClaim, IsDemo;
  }

  lemma DemoTree(fat: Fat, cat: Catalog)
    requires ChainAt(fat, 2) == Some([2]) && ChainAt(fat, 3) == Some([3]) && ChainAt(fat, 4) == Some([4]) && IsDemo(cat)
    ensures TreeOk(fat, 512, 2, cat)
  {
    DemoEntries(fat, cat);
    DemoClaims(fat, cat);
    hide EntriesOk, ClaimsApart, SubdirsOnce, ChainAt;
  }

  lemma DemoTreeOk()
    ensures Layout(GEO, |Image()|)
    ensures TreeOk(View(GEO, Image()).fat, 512, 2, CatalogOf(View(GEO, Image()), {2, 4}))
  {
    ImageTable(2);
    ImageTable(3);
    ImageTable(4);
    DemoCatalog();
    hide Image, View, CatalogOf, ChainAt, Orderly, DirGrid, TreeOk, IsDemo, Layout;
    DemoTree(View(GEO, Image()).fat, CatalogOf(View(GEO, Image()), {2, 4}));
  }

  /** The demo image is well-formed, with DIR below the root. */
  lemma DemoIsWellFormed()
    ensures WellFormed(GEO, Image(), {2, 4}) && IsDemo(Before(GEO, Image(), {2, 4}))
  {
    DemoCatalog();
    DemoTreeOk();
    hide Image, View, CatalogOf, Orderly, DirGrid, TreeOk, IsDemo, Layout, WellFormed;
    WellFormedOf(GEO, Image(), {2, 4});
  }

  // ---------- what the demo reads ----------

  lemma HelloPath()
    ensures Absolute("/HELLO.TXT") && Components("/HELLO.TXT") == ["HELLO.TXT"]
  {
    OneLevel("HELLO.TXT");
    PushRender(["HELLO.TXT"]);
    assert "/" + "HELLO.TXT" == "/HELLO.TXT";
  }

  lemma HelloEntry(cat: Catalog)
    requires IsDemo(cat)
    ensures 2 in cat && Get(cat[2], "HELLO.TXT") == Some(HELLO) && !IsDotName("HELLO.TXT")
  {
  }

  lemma HelloOpens()
    ensures OpenPath(GEO, Image(), "/HELLO.TXT") == Ok(Some(HELLO))
  {
    HelloPath();
    DemoIsWellFormed();
    WellFormedIsNavigable(GEO, Image(), {2, 4});
    UpperNames();
    HelloEntry(Before(GEO, Image(), {2, 4}));
    hide Image, View, OpenPath, Components, CatalogOf, TreeOk, Orderly, Upper, Absolute, Resolve, Passable, NoDots,
      Navigable, WellFormed, IsDemo, IsDotName, Layout;
    OneName(Before(GEO, Image(), {2, 4}), 2, "HELLO.TXT");
    OpenPathView(GEO, Image(), {2, 4}, "/HELLO.TXT");
  }

  lemma TextByte(k: nat)
    requires k < 5
    ensures Layout(GEO, |Image()|) && Top(GEO, |Image()|) == 9
    ensures ClusterBytes(GEO, Image(), 3)[k] == Text()[k]
  {
    ImageHeader();
    assert ClusterOff(GEO, 3) == 1536;
    assert ClusterBytes(GEO, Image(), 3)[k] == Image()[1536 + k] == DemoByte(1536 + k);
    hide Text;
    assert DemoByte(1536 + k) == Text()[k];
  }

  lemma TextStored()
    ensures Layout(GEO, |Image()|) && |View(GEO, Image()).data| == 10 && |View(GEO, Image()).data[3]| == 512
    ensures View(GEO, Image()).data[3][..5] == Text()
  {
    ImageHeader();
    var data := ClusterBytes(GEO, Image(), 3);
    assert View(GEO, Image()).data[3] == data;
    hide Image, Text, ClusterBytes;
    forall k | 0 <= k < 5 ensures data[..5][k] == Text()[k] {
      TextByte(k);
    }
  }

  lemma GatherOne(data: seq<seq<byte>>, c: nat, n: nat, size: nat)
    requires c < |data| && |data[c]| == size && 0 < n <= size
    ensures Gather(data, [c], n, size) == data[c][..n]
  {
    assert Gather(data, [], n - n, size) == [];
    assert [c][1..] == [];
  }

  lemma HelloBytes()
    ensures ReadFile(GEO, Image(), HELLO) == Ok(Text())
  {
    ImageHeader();
    ImageTable(3);
    TextStored();
    var v := View(GEO, Image());
    assert ChainFrom(v.fat, 3) == [3];
    hide Image, View, Text, ReadFile, Layout;
    ReadFileView(GEO, Image(), HELLO);
    GatherOne(v.data, 3, 5, 512);
  }

  /** Listing the root and reading HELLO.TXT, as the demo does. */
  lemma DemoReads()
    ensures ParseBpb(Image()).Ok? && GeoOf(ParseBpb(Image()).value) == GEO
    ensures ListDirPath(GEO, Image(), "/") == Ok([HELLO, DIR])
    ensures ReadFileByPath(GEO, Image(), "/HELLO.TXT") == Ok(Some(Text()))
  {
    ImageHeader();
    ImageTable(2);
    GridIs(2);
    RootNames();
    HelloOpens();
    HelloBytes();
    hide Image, View, ReadFile, OpenPath, Listing, Live, ListDir, Text;
    ListDirView(GEO, Image(), 2);
    ReadByPathIs(GEO, Image(), "/HELLO.TXT", HELLO);
  }

  // ---------- what the demo writes ----------

  const RAW_NEW: RawName := [0x4E, 0x45, 0x57, 0x20, 0x20, 0x20, 0x20, 0x20, 0x54, 0x58, 0x54]

  /** `NEW!`. */
  function NewText(): (s: seq<byte>)
    ensures |s| == 4
  {
    [0x4E, 0x45, 0x57, 0x21]
  }

  lemma NewName()
    ensures Encode("NEW.TXT") == Ok(RAW_NEW) && Decode(RAW_NEW) == "NEW.TXT" && Readable("NEW.TXT")
  {
    NewSpells();
    NewDecodes();
    hide Encode, Decode, Spells, Readable;
    EncodeIff("NEW.TXT", RAW_NEW);
    NameRoundTrip("NEW.TXT");
  }

  lemma NewSpells()
    ensures Pieces("NEW.TXT", "NEW", "TXT") && LengthsOk("NEW", "TXT") && Spells(RAW_NEW, "NEW", "TXT")
    ensures Upper("NEW.TXT") == "NEW.TXT"
  {
    assert "NEW" + "." + "TXT" == "NEW.TXT";
  }

  lemma NewDecodes()
    ensures Decode(RAW_NEW) == "NEW.TXT"
  {
    hide Decode;
    DecodeIs(RAW_NEW, "NEW", "TXT");
    assert "NEW" + "." + "TXT" == "NEW.TXT";
  }

  lemma NewPath()
    ensures SplitParent("/NEW.TXT") == Ok(("/", "NEW.TXT")) && Components("/") == []
  {
    SlashHasNoComponents();
    hide SplitParent, Components;
    SplitParentIs("", "NEW.TXT");
    assert "" + "/" + "NEW.TXT" == "/NEW.TXT";
  }

  lemma NewTargets()
    ensures Targets(GEO, Image(), {2, 4}, "/NEW.TXT", 2, RAW_NEW)
  {
    DemoIsWellFormed();
    NewName();
    NewPath();
    hide Image, View, Encode, Decode, Readable, WellFormed, IsDemo, CatalogOf, SplitParent, Components;
    ReadyTargets(GEO, Image(), {2, 4}, "/NEW.TXT");
  }

  lemma NothingReplaced(cat: Catalog, name: string)
    requires IsDemo(cat) && (name == NO_NAME || name == "NEW.TXT")
    ensures name !in cat[2] && !IsSubdir(cat, 2, name)
  {
  }

  lemma FreeRoom()
    ensures Layout(GEO, |Image()|) && FreeCount(View(GEO, Image()).fat) >= 1 && HasRoom(GEO, Image(), 2, RAW_NEW)
  {
    ImageHeader();
    var fat := View(GEO, Image()).fat;
    EntryIs(5);
    assert fat[5] == FatValue(GEO, Image(), 5) == 0;
    FreeFromSpec(fat, 2);
    assert 5 in FreeFrom(fat, 2);
    GridIs(2);
    ByteOf(2, 2, 0);
    assert IsFree(DirGrid(View(GEO, Image()), 2)[0][2]);
  }

  lemma NewSucceeds()
    ensures Succeeds(GEO, Image(), {2, 4}, 2, RAW_NEW, NewText())
  {
    NewTargets();
    NewName();
    DemoIsWellFormed();
    FreeRoom();
    NothingReplaced(Before(GEO, Image(), {2, 4}), OldName(GEO, Image(), 2, RAW_NEW));
    assert Needed(GEO, NewText()) == 1;
    hide Image, View, HasRoom, IsDemo, CatalogOf, WellFormed, Encode, Decode, Readable, IsSubdir, Freed;
  }

  /** Writing NEW.TXT answers Ok, and it reads back. */
  lemma DemoWrites()
    ensures var o := WriteFile(GEO, Image(), "/NEW.TXT", NewText());
            o.result.Ok? && ReadFileByPath(GEO, o.disk, "/NEW.TXT") == Ok(Some(NewText()))
  {
    NewTargets();
    NewSucceeds();
    NewName();
    NewPath();
    hide Image, WriteFile, ReadFileByPath, WriteInDir, Encode, Readable, Succeeds, SplitParent, NewText;
    TargetedWrite(GEO, Image(), {2, 4}, "/NEW.TXT", 2, RAW_NEW, NewText());
    TargetSucceeds(GEO, Image(), {2, 4}, "/NEW.TXT", 2, RAW_NEW, NewText());
    TargetRoundTrip(GEO, Image(), {2, 4}, "/NEW.TXT", 2, RAW_NEW, NewText());
  }
}

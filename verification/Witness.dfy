/** A smallest image: the hypotheses can be met, overwriting can lose a file, and a name can be written for nothing. */
module Witness {
  import opened Wrappers
  import opened Bytes
  import opened Names
  import opened DirEntries
  import opened Chains
  import opened Geometry
  import opened Directories
  import opened DirUpdates
  import opened Paths
  import opened Engine
  import opened Tree
  import opened Volume
  import opened Lookup
  import opened Writes
  import opened Outcomes
  import opened Frame
  import opened Theorems
  import opened Promises
  import opened Losses

  /** 512-byte sectors, one reserved sector, a table of one sector, and two clusters: an empty root, and a free one. */
  function ByteAt(i: nat): byte {
    if i == 12 || i == 44 then 2
    else if i == 13 || i == 14 || i == 16 || i == 36 then 1
    else if 520 <= i < 523 then 0xFF
    else if i == 523 then 0x0F
    else 0
  }

  function Blank(): (d: seq<byte>)
    ensures |d| == 2048
  {
    seq(2048, i requires 0 <= i < 2048 => ByteAt(i))
  }

  const GEO: Geo := Geo(512, 512, 1, 1024, 512, 2)

  lemma BlankHeader()
    ensures ParseBpb(Blank()).Ok? && GeoOf(ParseBpb(Blank()).value) == GEO
    ensures Layout(GEO, |Blank()|) && Top(GEO, |Blank()|) == 3
  {
    assert ParseBpb(Blank()) == Ok(BpbParams(512, 1, 1, 1, 1, 2));
  }

  lemma BlankTable()
    ensures Layout(GEO, |Blank()|)
    ensures View(GEO, Blank()).fat == [0, 0, EOC, 0]
    ensures ChainAt(View(GEO, Blank()).fat, 2) == Some([2])
    ensures FreeCount(View(GEO, Blank()).fat) == 1
  {
    BlankHeader();
    var fat := View(GEO, Blank()).fat;
    assert FatValue(GEO, Blank(), 0) == 0 && FatValue(GEO, Blank(), 1) == 0;
    assert FatValue(GEO, Blank(), 2) == EOC && FatValue(GEO, Blank(), 3) == 0;
    assert fat == [0, 0, EOC, 0];
    assert FreeFrom(fat, 4) == [];
    assert FreeFrom(fat, 3) == [3] + FreeFrom(fat, 4);
    assert FreeFrom(fat, 2) == FreeFrom(fat, 3);
  }

  lemma BlankRoot()
    ensures Layout(GEO, |Blank()|)
    ensures var grid := DirGrid(View(GEO, Blank()), 2);
            |grid| == 1 && |grid[0]| == 16 && grid[0][0][0] == END_MARK && Live(grid) == [] && Orderly(grid)
  {
    BlankTable();
    BlankHeader();
    var grid := DirGrid(View(GEO, Blank()), 2);
    assert grid == [Chunks(ClusterBytes(GEO, Blank(), 2))];
    assert ClusterOff(GEO, 2) == 1024;
    assert grid[0][0] == ClusterBytes(GEO, Blank(), 2)[0..32];
    assert grid[0][0][0] == ByteAt(1024);
    LiveRowIs(grid[0], 0);
  }

  /** The blank image is well-formed, with the root as its only directory. */
  lemma BlankIsWellFormed()
    ensures WellFormed(GEO, Blank(), {2})
    ensures CatalogOf(View(GEO, Blank()), {2}) == map[2 := map[]]
  {
    BlankTable();
    BlankRoot();
    assert CatalogOf(View(GEO, Blank()), {2}) == map[2 := map[]];
    RootOnlyTree(View(GEO, Blank()).fat, 512, 2);
  }

  lemma RootOnlyTree(fat: Fat, cs: nat, root: nat)
    requires ChainAt(fat, root).Some?
    ensures TreeOk(fat, cs, root, map[root := map[]])
  {
    var cat: Catalog := map[root := map[]];
    assert forall dir, name :: !HasEntry(cat, dir, name);
    assert forall c :: IsClaim(cat, c) ==> c == DirClaim(root);
  }

  // ---------- writing /A ----------

  const RAW_A: RawName := [0x41, 0x20, 0x20, 0x20, 0x20, 0x20, 0x20, 0x20, 0x20, 0x20, 0x20]

  lemma NameA()
    ensures Encode("A") == Ok(RAW_A) && Readable("A") && Decode(RAW_A) == "A" && Clean(RAW_A)
  {
    assert LastIndexOf("A", '.') == None;
    assert Encode("A").value == RAW_A;
    NameRoundTrip("A");
    assert Upper("A") == "A";
  }

  lemma PathA()
    ensures SplitParent("/A") == Ok(("/", "A")) && Components("/") == []
  {
    LastIndexUnique("/A", '/', 0);
    assert TrimSlashes("/A") == "/A";
    assert "/A"[1..] == "A";
    SlashHasNoComponents();
  }

  /** Any well-formed image of this shape is ready for a write to `/A`. */
  lemma ReadyA(d: seq<byte>)
    requires |d| == 2048 && WellFormed(GEO, d, {2})
    ensures Ready(GEO, d, {2}, "/A") && Targets(GEO, d, {2}, "/A", 2, RAW_A)
  {
    NameA();
    PathA();
    ReadyTargets(GEO, d, {2}, "/A");
  }

  function OneByte(): seq<byte> { [7] }

  function TwoClusters(): (s: seq<byte>)
    ensures |s| == 513
  {
    Zeros(513)
  }

  /** The first write goes through and uses up the free cluster. */
  lemma FirstWrite()
    ensures var o := WriteFile(GEO, Blank(), "/A", OneByte());
            && o.result == Ok(()) && |o.disk| == 2048 && WellFormed(GEO, o.disk, {2})
            && OldName(GEO, o.disk, 2, RAW_A) == "A"
            && FreeCount(View(GEO, o.disk).fat) == 0
            && |Freed(GEO, o.disk, {2}, 2, "A")| == 1
            && !IsSubdir(Before(GEO, o.disk, {2}), 2, "A")
            && HasEntry(Before(GEO, o.disk, {2}), 2, "A") && Before(GEO, o.disk, {2})[2]["A"].size == 1
            && ReadFileByPath(GEO, o.disk, "/A") == Ok(Some(OneByte()))
  {
    FirstSucceeds();
    ReadyBlank();
    NameA();
    PathA();
    TargetRoundTrip(GEO, Blank(), {2}, "/A", 2, RAW_A, OneByte());
    TargetedWrite(GEO, Blank(), {2}, "/A", 2, RAW_A, OneByte());
    FirstState();
    FirstCatalog();
  }

  lemma ReadyBlank()
    ensures Targets(GEO, Blank(), {2}, "/A", 2, RAW_A)
  {
    BlankIsWellFormed();
    ReadyA(Blank());
  }

  /** No write to the blank image gives anything back. */
  lemma BlankHoldsNothing(name: string)
    ensures WellFormed(GEO, Blank(), {2})
    ensures Freed(GEO, Blank(), {2}, 2, name) == [] && !IsSubdir(Before(GEO, Blank(), {2}), 2, name)
  {
    BlankIsWellFormed();
    hide Blank, View, CatalogOf, TreeOk, Orderly;
    assert !IsClaim(Before(GEO, Blank(), {2}), FileClaim(2, name));
  }

  lemma BlankHasRoom()
    ensures Layout(GEO, |Blank()|) && HasRoom(GEO, Blank(), 2, RAW_A)
  {
    BlankRoot();
    assert IsFree(DirGrid(View(GEO, Blank()), 2)[0][0]);
  }

  lemma FirstSucceeds()
    ensures Enters(GEO, Blank(), {2}, 2, RAW_A, OneByte())
    ensures Needed(GEO, OneByte()) == 1 && Freed(GEO, Blank(), {2}, 2, OldName(GEO, Blank(), 2, RAW_A)) == []
    ensures Decode(RAW_A) == "A"
  {
    ReadyBlank();
    BlankHasRoom();
    BlankHoldsNothing(OldName(GEO, Blank(), 2, RAW_A));
    BlankTable();
    NameA();
    hide Blank, View, HasRoom, Freed, IsSubdir, OldName, WellFormed, Decode, Encode, Readable, FreeCount;
    assert Needed(GEO, OneByte()) == 1;
  }

  lemma FirstState()
    requires Succeeds(GEO, Blank(), {2}, 2, RAW_A, OneByte())
    ensures var o := WriteInDir(GEO, Blank(), 2, RAW_A, OneByte());
            && o.result == Ok(()) && |o.disk| == 2048 && WellFormed(GEO, o.disk, {2})
            && FreeCount(View(GEO, o.disk).fat) == 0
  {
    FirstSucceeds();
    BlankTable();
    SuccessEffect(GEO, Blank(), {2}, 2, RAW_A, OneByte());
    SuccessKeepsWellFormed(GEO, Blank(), {2}, 2, RAW_A, OneByte());
    Conservation(GEO, Blank(), {2}, 2, RAW_A, OneByte());
  }

  lemma FirstCatalog()
    requires Succeeds(GEO, Blank(), {2}, 2, RAW_A, OneByte())
    ensures var d' := WriteInDir(GEO, Blank(), 2, RAW_A, OneByte()).disk;
            && Layout(GEO, |d'|)
            && OldName(GEO, d', 2, RAW_A) == "A"
            && !IsSubdir(Before(GEO, d', {2}), 2, "A")
            && |Freed(GEO, d', {2}, 2, "A")| == 1
            && HasEntry(Before(GEO, d', {2}), 2, "A") && Before(GEO, d', {2})[2]["A"].size == 1
  {
    FirstSucceeds();
    SuccessCatalog(GEO, Blank(), {2}, 2, RAW_A, OneByte());
    NextFreed(GEO, Blank(), {2}, 2, RAW_A, OneByte());
  }

  /** Overwriting with more than fits answers NoSpaceLeft; the file that could be read before no longer can be. */
  lemma OverwriteCanLoseFile()
    ensures var d := WriteFile(GEO, Blank(), "/A", OneByte()).disk;
            var o := WriteFile(GEO, d, "/A", TwoClusters());
            && WellFormed(GEO, d, {2}) && ReadFileByPath(GEO, d, "/A") == Ok(Some(OneByte()))
            && o.result == Err(NoSpaceLeft) && !WellFormed(GEO, o.disk, {2})
            && ReadFileByPath(GEO, o.disk, "/A") == Err(InvalidCluster)
  {
    FirstWrite();
    NameA();
    PathA();
    var d := WriteFile(GEO, Blank(), "/A", OneByte()).disk;
    ReadyA(d);
    assert Needed(GEO, TwoClusters()) == 2;
    hide WriteFile, ReadFileByPath, View, Encode, Blank;
    TargetAnswers(GEO, d, {2}, "/A", 2, RAW_A, TwoClusters());
    TargetedWrite(GEO, d, {2}, "/A", 2, RAW_A, TwoClusters());
    WellFormedIff(GEO, d, {2}, 2, RAW_A, TwoClusters());
    LostFile(GEO, d, {2}, "/A", 2, RAW_A, TwoClusters());
  }

  // ---------- a name that is never found again ----------

  lemma NameADot()
    ensures Encode("A.") == Ok(RAW_A) && !Readable("A.")
  {
    LastIndexUnique("A.", '.', 1);
    assert BaseOf("A.") == "A" && ExtOf("A.") == "";
    assert Encode("A.").value == RAW_A;
  }

  lemma PathADot()
    ensures SplitParent("/A.") == Ok(("/", "A."))
  {
    LastIndexUnique("/A.", '/', 0);
    assert TrimSlashes("/A.") == "/A.";
    assert "/A."[1..] == "A.";
  }

  /** `A.` is accepted and written, and its path opens to nothing. */
  lemma DottedNameIsGone()
    ensures var o := WriteFile(GEO, Blank(), "/A.", OneByte());
            o.result == Ok(()) && OpenPath(GEO, o.disk, "/A.") == Ok(None)
  {
    ReadyBlank();
    FirstSucceeds();
    NameADot();
    PathA();
    PathADot();
    assert Targets(GEO, Blank(), {2}, "/A.", 2, RAW_A);
    hide WriteFile, OpenPath, Encode, Readable, Blank;
    UnreadableIsGone(GEO, Blank(), {2}, "/A.", 2, RAW_A, OneByte());
  }
}

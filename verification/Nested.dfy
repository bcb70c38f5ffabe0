/** An image with a sub-directory, a file and a deleted slot in front of both: it is well-formed, and one write under a
    name that starts with NUL makes both of them vanish. */
module Nested {
  import opened Wrappers
  import opened Bytes
  import opened Names
  import opened DirEntries
  import opened Chains
  import opened Geometry
  import opened Directories
  import opened DirUpdates
  import opened Paths
  import opened Engine
  import opened Tree
  import opened Volume
  import opened Lookup
  import opened Writes
  import opened Outcomes
  import opened Theorems
  import opened OddNames
  import opened Witness

  /** The blank image with both clusters in use. The root has a deleted slot, the directory S and the empty file B; S
      has its self and parent entries. */
  function NestedByteAt(i: nat): byte {
    if 524 <= i < 527 then 0xFF
    else if i == 527 then 0x0F
    else if i == 1024 then DELETED
    else if 1056 <= i < 1088 then SlotByte(0x53, 0x20, 0x10, 3, i - 1056)
    else if 1088 <= i < 1120 then SlotByte(0x42, 0x20, 0x20, 0, i - 1088)
    else if 1536 <= i < 1568 then SlotByte(DOT, 0x20, 0x10, 3, i - 1536)
    else if 1568 <= i < 1600 then SlotByte(DOT, DOT, 0x10, 0, i - 1568)
    else ByteAt(i)
  }

  /** A slot named by its first two characters, with no size. */
  function SlotByte(first: byte, second: byte, attributes: byte, cluster: byte, k: nat): byte {
    if k == 0 then first
    else if k == 1 then second
    else if k < 11 then SPACE
    else if k == 11 then attributes
    else if k == 26 then cluster
    else 0
  }

  function Image(): (d: seq<byte>)
    ensures |d| == 2048
  {
    seq(2048, i requires 0 <= i < 2048 => NestedByteAt(i))
  }

  lemma ImageHeader()
    ensures ParseBpb(Image()).Ok? && GeoOf(ParseBpb(Image()).value) == GEO
    ensures Layout(GEO, |Image()|) && Top(GEO, |Image()|) == 3
  {
    BlankHeader();
    assert ParseBpb(Image()) == Ok(BpbParams(512, 1, 1, 1, 1, 2));
  }

  lemma ImageTable()
    ensures Layout(GEO, |Image()|)
    ensures View(GEO, Image()).fat == [0, 0, EOC, EOC]
    ensures ChainAt(View(GEO, Image()).fat, 2) == Some([2]) && ChainAt(View(GEO, Image()).fat, 3) == Some([3])
  {
    ImageHeader();
    var fat := View(GEO, Image()).fat;
    assert FatValue(GEO, Image(), 0) == 0 && FatValue(GEO, Image(), 1) == 0;
    assert FatValue(GEO, Image(), 2) == EOC && FatValue(GEO, Image(), 3) == EOC;
    assert fat == [0, 0, EOC, EOC];
  }

  /** The row of cluster `c`. */
  function RowOf(c: nat): (row: Row)
    requires 2 <= c <= 3
    ensures |row| == 16
  {
    ImageHeader();
    Chunks(ClusterBytes(GEO, Image(), c))
  }

  lemma ByteOf(c: nat, a: nat, k: nat)
    requires 2 <= c <= 3 && a < 16 && k < 32
    ensures RowOf(c)[a][k] == NestedByteAt(512 * c + 32 * a + k)
  {
    ImageHeader();
    assert ClusterOff(GEO, c) == 512 * c;
    assert RowOf(c)[a][k] == ClusterBytes(GEO, Image(), c)[32 * a + k] == Image()[512 * c + (32 * a + k)];
  }

  lemma GridIs(c: nat)
    requires 2 <= c <= 3
    ensures Layout(GEO, |Image()|) && DirGrid(View(GEO, Image()), c) == [RowOf(c)]
  {
    ImageTable();
    assert View(GEO, Image()).data[c] == ClusterBytes(GEO, Image(), c);
  }

  function NameBytes(first: byte, second: byte): (raw: RawName) {
    [first, second] + [SPACE, SPACE, SPACE, SPACE, SPACE, SPACE, SPACE, SPACE, SPACE]
  }

  lemma SlotIs(c: nat, a: nat, first: byte, second: byte, attributes: byte, cluster: byte)
    requires 2 <= c <= 3 && a < 16
    requires forall k :: 0 <= k < 32 ==>
               NestedByteAt(512 * c + 32 * a + k) == SlotByte(first, second, attributes, cluster, k)
    ensures RawOf(RowOf(c)[a]) == NameBytes(first, second) && RowOf(c)[a][0] == first
    ensures RowOf(c)[a][11] == attributes && ClusterField(RowOf(c)[a]) == cluster && Le32(RowOf(c)[a], 28) == 0
  {
    forall k | 0 <= k < 32 ensures RowOf(c)[a][k] == SlotByte(first, second, attributes, cluster, k) {
      ByteOf(c, a, k);
    }
  }

  lemma LetterName(c: char)
    requires 'A' <= c <= 'Z'
    ensures Clean(NameBytes(c as int as byte, SPACE)) && Decode(NameBytes(c as int as byte, SPACE)) == [c]
  {
    assert LastIndexOf([c], '.') == None;
    assert Encode([c]).value == NameBytes(c as int as byte, SPACE);
    EncodedIsClean([c]);
    NameRoundTrip([c]);
    assert Upper([c]) == [c];
  }

  const DIRECTORY: Attributes := Attributes(false, false, false, false, true, false)
  const S: DirEntry := DirEntry("S", DIRECTORY, 3, 0)
  const B: DirEntry := DirEntry("B", FILE_ATTRIBUTES, 0, 0)

  lemma RootSlots()
    ensures var row := RowOf(2);
            && row[0][0] == DELETED && row[3][0] == END_MARK
            && Clean(RawOf(row[1])) && Clean(RawOf(row[2]))
            && ParseSlot(row[0]) == None && ParseSlot(row[1]) == Some(S) && ParseSlot(row[2]) == Some(B)
  {
    ByteOf(2, 0, 0);
    ByteOf(2, 3, 0);
    SlotIs(2, 1, 0x53, 0x20, 0x10, 3);
    SlotIs(2, 2, 0x42, 0x20, 0x20, 0);
    LetterName('S');
    LetterName('B');
  }

  lemma RootNames()
    ensures var live := Live([RowOf(2)]);
            && live == RowOf(2)[..3] && NamesClean(live)
            && ByName(live) == map["B" := B, "S" := S]
  {
    var row := RowOf(2);
    RootSlots();
    LiveRowIs(row, 3);
    var live := row[..3];
    assert ByName(live[3..]) == map[];
    assert live[2..][1..] == live[3..] && live[1..][1..] == live[2..];
    assert Upper("B") == "B" && Upper("S") == "S";
    assert ByName(live[2..]) == map["B" := B];
    assert ByName(live[1..]) == map["B" := B, "S" := S];
  }

  lemma ParentSlotByte(k: nat)
    requires k < 32
    ensures NestedByteAt(1568 + k) == SlotByte(DOT, DOT, 0x10, 0, k)
  {
    var i := 1568 + k;
    assert !(1536 <= i < 1568) && 1568 <= i < 1600;
    assert i - 1568 == k;
  }

  lemma SubSlots()
    ensures var row := RowOf(3);
            && row[0][0] != END_MARK && row[1][0] != END_MARK && row[2][0] == END_MARK
            && RawOf(row[0]) == DOT_ENTRY && RawOf(row[1]) == DOTDOT_ENTRY
  {
    SlotIs(3, 0, DOT, 0x20, 0x10, 3);
    forall k | 0 <= k < 32 ensures NestedByteAt(512 * 3 + 32 * 1 + k) == SlotByte(DOT, DOT, 0x10, 0, k) {
      ParentSlotByte(k);
    }
    SlotIs(3, 1, DOT, DOT, 0x10, 0);
    ByteOf(3, 2, 0);
  }

  lemma DotSlotKey(s: Slot)
    requires RawOf(s) == DOT_ENTRY || RawOf(s) == DOTDOT_ENTRY
    ensures KeyOf(s).Some? ==> IsDotName(KeyOf(s).value)
  {
    DotDecodes();
  }

  lemma SubNames()
    ensures var live := Live([RowOf(3)]);
            NamesClean(live) && forall n :: n in ByName(live) ==> IsDotName(n)
  {
    var row := RowOf(3);
    SubSlots();
    LiveRowIs(row, 2);
    DotSlotKey(row[0]);
    DotSlotKey(row[1]);
    hide RowOf, ByName, KeyOf, IsDotName, LiveRow;
    var live := row[..2];
    forall n | n in ByName(live) ensures IsDotName(n) {
      ByNameMember(live, n);
    }
  }

  ghost predicate IsNested(cat: Catalog) {
    cat.Keys == {2, 3} && cat[2] == map["B" := B, "S" := S] && forall n :: n in cat[3] ==> IsDotName(n)
  }

  lemma NestedEntries(fat: Fat, cat: Catalog)
    requires ChainAt(fat, 2) == Some([2]) && ChainAt(fat, 3) == Some([3]) && IsNested(cat)
    ensures EntriesOk(fat, 512, 2, cat) && SubdirsOnce(cat)
  {
    assert forall dir, name :: HasEntry(cat, dir, name) ==> dir == 2 && (name == "B" || name == "S");
  }

  lemma NestedClaims(fat: Fat, cat: Catalog)
    requires ChainAt(fat, 2) == Some([2]) && ChainAt(fat, 3) == Some([3]) && IsNested(cat)
    ensures ClaimsApart(fat, cat)
  {
    assert ChainFrom(fat, 0) == [];
    forall c | IsClaim(cat, c) ensures ClaimChain(fat, cat, c) == if c.DirClaim? then [c.dir] else [] {
      if c.FileClaim? { assert HasEntry(cat, c.dir, c.name) && c.dir == 2; }
    }
    hide ClaimChain, IsClaim, IsNested;
  }

  lemma TwoDirectories(fat: Fat, cat: Catalog)
    requires ChainAt(fat, 2) == Some([2]) && ChainAt(fat, 3) == Some([3]) && IsNested(cat)
    ensures TreeOk(fat, 512, 2, cat)
  {
    NestedEntries(fat, cat);
    NestedClaims(fat, cat);
  }

  lemma ImageDirectories()
    ensures Layout(GEO, |Image()|)
    ensures IsNested(CatalogOf(View(GEO, Image()), {2, 3}))
    ensures Orderly(DirGrid(View(GEO, Image()), 2)) && Orderly(DirGrid(View(GEO, Image()), 3))
  {
    GridIs(2);
    GridIs(3);
    RootNames();
    SubNames();
    hide Image, View, RowOf, Live, ByName, DirGrid, NamesClean, Layout;
  }

  lemma NestedTreeOk()
    ensures Layout(GEO, |Image()|)
    ensures TreeOk(View(GEO, Image()).fat, 512, 2, CatalogOf(View(GEO, Image()), {2, 3}))
  {
    ImageTable();
    ImageDirectories();
    hide Image, View, CatalogOf, ChainAt, TreeOk, Orderly, DirGrid, IsNested, Layout;
    TwoDirectories(View(GEO, Image()).fat, CatalogOf(View(GEO, Image()), {2, 3}));
  }

  /** The image is well-formed, with a directory below the root. */
  lemma NestedIsWellFormed()
    ensures WellFormed(GEO, Image(), {2, 3})
    ensures Before(GEO, Image(), {2, 3})[2] == map["B" := B, "S" := S]
  {
    ImageDirectories();
    NestedTreeOk();
    hide Image, View, CatalogOf, TreeOk, Orderly, DirGrid, Layout, WellFormed;
    WellFormedOf(GEO, Image(), {2, 3});
  }

  // ---------- one write, and both entries are gone ----------

  lemma NulPath()
    ensures SplitParent("/\0") == Ok(("/", "\0"))
    ensures Encode("\0") == Ok(NameBytes(END_MARK, SPACE)) && Clean(NameBytes(END_MARK, SPACE))
  {
    LastIndexUnique("/\0", '/', 0);
    assert TrimSlashes("/\0") == "/\0";
    assert "/\0"[1..] == "\0";
    assert LastIndexOf("\0", '.') == None;
    assert Encode("\0").value == NameBytes(END_MARK, SPACE);
    EncodedIsClean("\0");
  }

  lemma LetterPath(c: char)
    requires 'A' <= c <= 'Z'
    ensures Absolute(['/', c]) && Components(['/', c]) == [[c]]
  {
    assert SplitParent(['/', c]) == Ok(("/", [c])) by {
      LastIndexUnique(['/', c], '/', 0);
      assert TrimSlashes(['/', c]) == ['/', c];
      assert ['/', c][1..] == [c];
    }
    SplitParentComponents(['/', c]);
    SlashHasNoComponents();
  }

  /** The write has a target, and goes through. */
  lemma NulReady()
    ensures Targets(GEO, Image(), {2, 3}, "/\0", 2, NameBytes(END_MARK, SPACE))
    ensures Succeeds(GEO, Image(), {2, 3}, 2, NameBytes(END_MARK, SPACE), [])
  {
    NulPath();
    NestedIsWellFormed();
    SlashHasNoComponents();
    ReadyTargets(GEO, Image(), {2, 3}, "/\0");
    GridIs(2);
    RootSlots();
    assert IsFree([RowOf(2)][0][0]);
    assert Needed(GEO, []) == 0;
    NulSucceeds(GEO, Image(), {2, 3}, 2, NameBytes(END_MARK, SPACE), []);
  }

  lemma BothHidden()
    ensures Layout(GEO, |Image()|)
    ensures HiddenNames(DirGrid(View(GEO, Image()), 2), NameBytes(END_MARK, SPACE)) == {"B", "S"}
  {
    var grid, raw := [RowOf(2)], NameBytes(END_MARK, SPACE);
    GridIs(2);
    RootSlots();
    RootNames();
    NulIsNotFound(grid, raw);
    assert FreeRow(grid[0], 0) == Some(0);
    assert SlotsBefore(grid, raw) == [];
  }

  predicate IsEntry(c: char, e: DirEntry) {
    (c == 'B' && e == B) || (c == 'S' && e == S)
  }

  lemma EntryNames(c: char, e: DirEntry)
    requires IsEntry(c, e)
    ensures Absolute(['/', c]) && Components(['/', c]) == [[c]]
    ensures Upper([c]) == [c] && !IsDotName([c]) && [c] in {"B", "S"}
    ensures map["B" := B, "S" := S][[c]] == e
  {
    LetterPath(c);
    assert Upper([c]) == [c];
    assert ['B'] == "B" && ['S'] == "S";
  }

  /** What the two paths open to before the write. */
  lemma OpensBefore(c: char, e: DirEntry)
    requires IsEntry(c, e)
    ensures OpenPath(GEO, Image(), ['/', c]) == Ok(Some(e))
    ensures WellFormed(GEO, Image(), {2, 3})
    ensures NoDots([[c]]) && Passable(Before(GEO, Image(), {2, 3}), 2, [[c]])
  {
    EntryNames(c, e);
    NestedIsWellFormed();
    WellFormedIsNavigable(GEO, Image(), {2, 3});
    hide Image, View, OpenPath, Components, Resolve, Passable, NoDots, IsEntry, CatalogOf, TreeOk, Orderly, IsDotName,
      Upper, Absolute;
    OneName(Before(GEO, Image(), {2, 3}), 2, [c]);
    OpenPathView(GEO, Image(), {2, 3}, ['/', c]);
  }

  lemma GoesToRoot(name: string, names: set<string>)
    requires Upper(name) == name && name in names
    ensures GoesThrough([name], [], names)
  {
    assert [name][..0] == [];
  }

  lemma GoneAfter(c: char, e: DirEntry)
    requires IsEntry(c, e)
    ensures OpenPath(GEO, WriteFile(GEO, Image(), "/\0", []).disk, ['/', c]) == Ok(None)
  {
    OpensBefore(c, e);
    EntryNames(c, e);
    NulPath();
    NulReady();
    BothHidden();
    SlashHasNoComponents();
    hide Image, View, OpenPath, Components, Passable, NoDots, IsEntry, CatalogOf, WellFormed, Upper, Absolute,
      WriteInDir, WriteFile, Succeeds, HiddenNames, Encode, SplitParent, NameBytes, Targets, GoesThrough, Layout;
    GoesToRoot([c], {"B", "S"});
    NulHides(GEO, Image(), {2, 3}, "/\0", 2, NameBytes(END_MARK, SPACE), [], ['/', c]);
  }

  lemma NulAnswersOk()
    ensures WriteFile(GEO, Image(), "/\0", []).result == Ok(())
  {
    NulReady();
    hide WriteFile, WriteInDir, Image, Succeeds, NameBytes, Targets;
    TargetedWrite(GEO, Image(), {2, 3}, "/\0", 2, NameBytes(END_MARK, SPACE), []);
    SuccessEffect(GEO, Image(), {2, 3}, 2, NameBytes(END_MARK, SPACE), []);
  }

  /** An empty write to a path whose name is one NUL answers Ok, and the file B and the directory S, both of which
      opened before, then open to nothing. */
  lemma NulNameLosesEntries()
    ensures ParseBpb(Image()).Ok? && GeoOf(ParseBpb(Image()).value) == GEO && WellFormed(GEO, Image(), {2, 3})
    ensures var o := WriteFile(GEO, Image(), "/\0", []);
            && o.result == Ok(())
            && OpenPath(GEO, Image(), "/B") == Ok(Some(B)) && OpenPath(GEO, o.disk, "/B") == Ok(None)
            && OpenPath(GEO, Image(), "/S") == Ok(Some(S)) && OpenPath(GEO, o.disk, "/S") == Ok(None)
  {
    assert ['/', 'B'] == "/B" && ['/', 'S'] == "/S";
    assert IsEntry('B', B) && IsEntry('S', S);
    ImageHeader();
    hide WriteFile, WriteInDir, OpenPath, View, Image, WellFormed, IsEntry, NameBytes, Passable, NoDots;
    NulAnswersOk();
    OpensBefore('B', B);
    OpensBefore('S', S);
    GoneAfter('B', B);
    GoneAfter('S', S);
  }
}

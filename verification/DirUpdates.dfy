/** The directory update of a write: which slot it takes, and what readers see afterwards. */
module DirUpdates {
  import opened Wrappers
  import opened Names
  import opened DirEntries
  import opened Directories

  // ---------- the slot a write takes ----------

  /** Where a write puts its slot: over the slot that the raw search finds, else in the first free slot. */
  function Place(grid: Grid, raw: RawName): (r: Option<(nat, nat)>)
    ensures r.Some? ==> r.value.0 < |grid| && r.value.1 < |grid[r.value.0]|
  {
    match FindGrid(grid, raw)
    case Some(at) => Some(at)
    case None => FreeGrid(grid)
  }

  function UpdateGrid(grid: Grid, raw: RawName, s: Slot): (r: Option<Grid>)
    ensures r.Some? ==> |r.value| == |grid|
  {
    match FindGrid(grid, raw)
    case Some((i, a)) => Some(PutSlot(grid, i, a, s))
    case None =>
      match FreeGrid(grid)
      case None => None
      case Some((i, a)) => Some(if grid[i][a][0] == END_MARK then PutAtEnd(grid, i, a, s) else PutSlot(grid, i, a, s))
  }

  ghost predicate HasFreeSlot(grid: Grid) {
    exists i, a :: 0 <= i < |grid| && 0 <= a < |grid[i]| && IsFree(grid[i][a])
  }

  ghost predicate HasMatch(slots: seq<Slot>, raw: RawName) {
    exists j :: 0 <= j < |slots| && Matches(slots[j], raw)
  }

  /** There is a place exactly when a live slot has the raw name or some slot is free. */
  lemma PlaceExists(grid: Grid, raw: RawName)
    ensures Place(grid, raw).Some? <==> HasMatch(Live(grid), raw) || HasFreeSlot(grid)
  {
    FindGridSpec(grid, raw);
    FreeGridSpec(grid);
    if FindGrid(grid, raw).Some? {
      var (i, a) := FindGrid(grid, raw).value;
      PutLive(grid, i, a, grid[i][a]);
    }
  }

  /** The slots before the one that `Place` takes, as readers count them. */
  function PlaceIndex(grid: Grid, raw: RawName): nat
    requires Place(grid, raw).Some?
  {
    FlatIndex(grid, Place(grid, raw).value.0, Place(grid, raw).value.1)
  }

  // ---------- the slot that is written ----------

  /** A directory a write can rely on. */
  ghost predicate Orderly(grid: Grid) {
    EndRule(grid) && NamesClean(Live(grid))
  }

  /** A slot that shows an entry under the clean raw name `raw`. */
  ghost predicate Shows(s: Slot, raw: RawName, e: DirEntry) {
    && Clean(raw) && raw[0] != END_MARK && raw[0] != DELETED
    && RawOf(s) == raw && ParseSlot(s) == Some(e)
  }

  /** A slot with the clean raw name `raw`: it shows `e`, unless the name starts with NUL and so marks the end. */
  ghost predicate Carries(s: Slot, raw: RawName, e: DirEntry) {
    && Clean(raw) && raw[0] != DELETED && RawOf(s) == raw && s[0] == raw[0]
    && ParseSlot(s) == if raw[0] == END_MARK then None else Some(e)
  }

  lemma ShowsKey(s: Slot, raw: RawName, e: DirEntry)
    requires Shows(s, raw, e)
    ensures Upper(e.name) == Decode(raw) && s[0] != END_MARK && KeyOf(s) == Some(Decode(raw))
  {
    UpperOfClean(raw);
    assert s[0] == raw[0];
  }

  // ---------- a slot that shows an entry ----------

  lemma PutOrderly(grid: Grid, i: nat, a: nat, s: Slot, raw: RawName, e: DirEntry)
    requires Orderly(grid) && Shows(s, raw, e)
    requires Reached(grid, i, a) && grid[i][a][0] != END_MARK
    ensures Orderly(PutSlot(grid, i, a, s))
  {
    ShowsKey(s, raw, e);
    PutLive(grid, i, a, s);
    PutKeepsEndRule(grid, i, a, s);
  }

  lemma PutAtEndOrderly(grid: Grid, i: nat, a: nat, s: Slot, raw: RawName, e: DirEntry)
    requires Orderly(grid) && Shows(s, raw, e)
    requires Reached(grid, i, a) && grid[i][a][0] == END_MARK
    ensures Orderly(PutAtEnd(grid, i, a, s))
  {
    ShowsKey(s, raw, e);
    PutAtEndLive(grid, i, a, s);
    PutAtEndKeepsEndRule(grid, i, a, s);
  }

  /** What a slot that shows an entry does to the live slots: it replaces one of them, or comes after them all; no slot
      before it has its name, and the slot it replaces shows that name or nothing. */
  ghost predicate SlotPlaced(grid: Grid, raw: RawName, s: Slot, grid': Grid)
    requires Place(grid, raw).Some?
  {
    var k, slots := PlaceIndex(grid, raw), Live(grid);
    && k <= |slots|
    && Live(grid') == (if k < |slots| then slots[k := s] else slots + [s])
    && (k < |slots| ==> KeyOf(slots[k]) == None || KeyOf(slots[k]) == Some(Decode(raw)))
    && (forall j :: 0 <= j < k ==> KeyOf(slots[j]) != Some(Decode(raw)) && !Matches(slots[j], raw))
    && Orderly(grid')
  }

  lemma UpdatePlaced(grid: Grid, raw: RawName, s: Slot, e: DirEntry)
    requires Orderly(grid) && Shows(s, raw, e) && UpdateGrid(grid, raw, s).Some?
    ensures Place(grid, raw).Some? && SlotPlaced(grid, raw, s, UpdateGrid(grid, raw, s).value)
  {
    NothingBefore(grid, raw);
    ShowsKey(s, raw, e);
    FindGridSpec(grid, raw);
    FreeGridSpec(grid);
    hide NamesClean, Decode, KeyOf, EndRule, Orderly, Shows, Matches, LabelHit;
    match FindGrid(grid, raw)
    case Some((i, a)) =>
      PutLive(grid, i, a, s);
      PutOrderly(grid, i, a, s, raw, e);
    case None =>
      var (i, a) := FreeGrid(grid).value;
      if grid[i][a][0] == END_MARK {
        AtEndPlaced(grid, i, a, s, raw, e);
      } else {
        PutLive(grid, i, a, s);
        PutOrderly(grid, i, a, s, raw, e);
      }
  }

  /** No live slot before the place has the name, and the slot there shows that name or nothing. */
  lemma NothingBefore(grid: Grid, raw: RawName)
    requires Clean(raw) && NamesClean(Live(grid)) && Place(grid, raw).Some?
    ensures var (i, a) := Place(grid, raw).value;
            && (KeyOf(grid[i][a]) == None || KeyOf(grid[i][a]) == Some(Decode(raw)))
            && forall j :: 0 <= j < FlatIndex(grid, i, a) && j < |Live(grid)| ==>
                 KeyOf(Live(grid)[j]) != Some(Decode(raw)) && !Matches(Live(grid)[j], raw)
  {
    RawSearchIsLookup(grid, raw);
    FindGridSpec(grid, raw);
    FreeGridSpec(grid);
    ByNameMember(Live(grid), Decode(raw));
    hide NamesClean, Decode, ByName, ParseSlot;
    if FindGrid(grid, raw).None? {
      var (i, a) := FreeGrid(grid).value;
      FreeShowsNothing(grid[i][a]);
    }
  }

  lemma AtEndPlaced(grid: Grid, i: nat, a: nat, s: Slot, raw: RawName, e: DirEntry)
    requires Orderly(grid) && Shows(s, raw, e) && Reached(grid, i, a) && grid[i][a][0] == END_MARK
    ensures FlatIndex(grid, i, a) == |Live(grid)| && Live(PutAtEnd(grid, i, a, s)) == Live(grid) + [s]
    ensures Orderly(PutAtEnd(grid, i, a, s))
  {
    ShowsKey(s, raw, e);
    PutAtEndLive(grid, i, a, s);
    PutAtEndOrderly(grid, i, a, s, raw, e);
  }

  lemma FreeShowsNothing(s: Slot)
    requires IsFree(s)
    ensures KeyOf(s) == None && ParseSlot(s) == None
  {
  }

  /** The name map changes at one name. */
  lemma PlacedNames(grid: Grid, raw: RawName, s: Slot, e: DirEntry, grid': Grid)
    requires Place(grid, raw).Some? && Shows(s, raw, e) && SlotPlaced(grid, raw, s, grid')
    ensures ByName(Live(grid')) == ByName(Live(grid))[Decode(raw) := e]
  {
    var k, slots := PlaceIndex(grid, raw), Live(grid);
    ShowsKey(s, raw, e);
    if k < |slots| {
      ByNameReplace(slots, k, s, e);
    } else {
      ByNameMember(slots, Decode(raw));
      ByNameAppend(slots, s, e);
    }
  }

  // ---------- a slot that marks the end ----------

  /** A slot that starts with NUL ends the directory: the live slots are cut off before it. */
  lemma {:induction false} CutLive(grid: Grid, i: nat, a: nat, row: Row)
    requires Reached(grid, i, a) && |row| == |grid[i]| && row[..a] == grid[i][..a] && row[a][0] == END_MARK
    ensures FlatIndex(grid, i, a) <= |Live(grid)|
    ensures Live(grid[i := row]) == Live(grid)[..FlatIndex(grid, i, a)]
    decreases i
  {
    if i == 0 {
      assert forall b :: 0 <= b < a ==> row[b] == row[..a][b] == grid[0][b];
      LiveRowIs(row, a);
      assert a <= |LiveRow(grid[0])|;
    } else {
      assert grid[i := row][1..] == grid[1..][i - 1 := row];
      CutLive(grid[1..], i - 1, a, row);
      LiveRowFull(grid[0]);
    }
  }

  /** The rows after row `i` show nothing. */
  ghost predicate NothingBehind(grid: Grid, i: nat) {
    forall j :: i < j < |grid| && grid[j] != [] ==> grid[j][0][0] == END_MARK
  }

  /** With a new end mark in row `i`, the end rule holds exactly when the rows behind it show nothing. */
  lemma CutEndRule(grid: Grid, i: nat, a: nat, row: Row)
    requires Reached(grid, i, a) && EndRule(grid)
    requires |row| == |grid[i]| && row[..a] == grid[i][..a] && row[a][0] == END_MARK
    ensures EndRule(grid[i := row]) <==> NothingBehind(grid, i)
  {
    var grid' := grid[i := row];
    ReachedBefore(grid, i, a);
    if EndRule(grid') {
      forall j | i < j < |grid| && grid[j] != [] ensures grid[j][0][0] == END_MARK {
        assert grid'[i][a][0] == END_MARK && grid'[j] == grid[j];
      }
    }
    if NothingBehind(grid, i) {
      forall p, q, b | 0 <= p < q < |grid'| && 0 <= b < |grid'[p]| && grid'[p][b][0] == END_MARK && grid'[q] != []
        ensures grid'[q][0][0] == END_MARK
      {
        assert grid'[q] == if q == i then row else grid[q];
        assert i <= p;
      }
    }
  }

  /** The live slots before the place that a write takes. */
  function SlotsBefore(grid: Grid, raw: RawName): (r: seq<Slot>)
    ensures r <= Live(grid)
  {
    if Place(grid, raw).Some? && PlaceIndex(grid, raw) <= |Live(grid)| then Live(grid)[..PlaceIndex(grid, raw)]
    else Live(grid)
  }

  /** What a slot that starts with NUL does: the live slots from its place on are gone. */
  ghost predicate SlotCuts(grid: Grid, raw: RawName, grid': Grid)
    requires Place(grid, raw).Some?
  {
    && PlaceIndex(grid, raw) <= |Live(grid)|
    && Live(grid') == SlotsBefore(grid, raw)
    && (Orderly(grid') <==> NothingBehind(grid, Place(grid, raw).value.0))
  }

  lemma UpdateCuts(grid: Grid, raw: RawName, s: Slot)
    requires Orderly(grid) && raw[0] == END_MARK == s[0] && UpdateGrid(grid, raw, s).Some?
    ensures Place(grid, raw).Some? && SlotCuts(grid, raw, UpdateGrid(grid, raw, s).value)
    ensures FreeGrid(grid) == Place(grid, raw)
  {
    NulIsNotFound(grid, raw);
    FreeGridSpec(grid);
    var (i, a) := FreeGrid(grid).value;
    var grid' := UpdateGrid(grid, raw, s).value;
    var row := grid'[i];
    assert grid' == grid[i := row];
    assert row[..a] == grid[i][..a];
    CutLive(grid, i, a, row);
    CutEndRule(grid, i, a, row);
  }

  /** What an end mark at that place hides: the names that only slots from there on show. */
  function HiddenNames(grid: Grid, raw: RawName): set<string> {
    ByName(Live(grid)).Keys - ByName(SlotsBefore(grid, raw)).Keys
  }

  /** The names of the first slots are names of all slots, with the same entries. */
  lemma {:induction false} PrefixNames(slots: seq<Slot>, k: nat)
    requires k <= |slots|
    ensures forall n :: n in ByName(slots[..k]) ==> n in ByName(slots) && ByName(slots)[n] == ByName(slots[..k])[n]
    decreases k
  {
    if k > 0 {
      assert slots[..k][0] == slots[0] && slots[..k][1..] == slots[1..][..k - 1];
      PrefixNames(slots[1..], k - 1);
    }
  }

  lemma NothingAppended<T>(a: seq<T>, b: seq<T>)
    ensures a == a + b <==> b == []
  {
    if a == a + b { assert |a| == |a + b|; }
  }

  /** The listing is kept exactly when the slots behind the mark list nothing; then no name is hidden. */
  lemma CutListing(grid: Grid, raw: RawName)
    ensures Listing(SlotsBefore(grid, raw)) == Listing(Live(grid))
            <==> Listing(Live(grid)[|SlotsBefore(grid, raw)|..]) == []
    ensures Listing(SlotsBefore(grid, raw)) == Listing(Live(grid)) ==> HiddenNames(grid, raw) == {}
  {
    var slots, first := Live(grid), SlotsBefore(grid, raw);
    var rest := slots[|first|..];
    assert slots == first + rest;
    ListingConcat(first, rest);
    NothingAppended(Listing(first), Listing(rest));
    if Listing(first) == Listing(slots) { SameListingNames(slots, first); }
  }

  lemma SameListingNames(a: seq<Slot>, b: seq<Slot>)
    requires Listing(a) == Listing(b)
    ensures ByName(a).Keys == ByName(b).Keys
  {
    hide Listing, ByName, FindByName;
    forall n ensures n in ByName(a) <==> n in ByName(b) {
      ListingLookup(a, n);
      ListingLookup(b, n);
    }
  }

  // ---------- every write ----------

  /** A write updates the directory map at one name and keeps the directory orderly; under a name that starts with NUL
      it cuts the directory off before the first free slot instead. */
  lemma DirectoryUpdate(grid: Grid, raw: RawName, s: Slot, e: DirEntry)
    requires Orderly(grid) && Carries(s, raw, e)
    ensures UpdateGrid(grid, raw, s).Some? <==> HasMatch(Live(grid), raw) || HasFreeSlot(grid)
    ensures UpdateGrid(grid, raw, s).Some? ==>
              var grid' := UpdateGrid(grid, raw, s).value;
              && Place(grid, raw).Some?
              && if raw[0] == END_MARK then SlotCuts(grid, raw, grid')
                 else Orderly(grid') && ByName(Live(grid')) == ByName(Live(grid))[Decode(raw) := e]
  {
    PlaceExists(grid, raw);
    if UpdateGrid(grid, raw, s).Some? {
      if raw[0] == END_MARK {
        UpdateCuts(grid, raw, s);
      } else {
        UpdatePlaced(grid, raw, s, e);
        PlacedNames(grid, raw, s, e, UpdateGrid(grid, raw, s).value);
      }
    }
  }

  /** The slot a write leaves is the one the next write of that raw name finds. */
  lemma NextFind(grid: Grid, raw: RawName, s: Slot, e: DirEntry)
    requires Orderly(grid) && Shows(s, raw, e) && UpdateGrid(grid, raw, s).Some?
    ensures !LabelHit(UpdateGrid(grid, raw, s).value, raw)
  {
    var grid' := UpdateGrid(grid, raw, s).value;
    UpdatePlaced(grid, raw, s, e);
    var k := PlaceIndex(grid, raw);
    assert Live(grid')[k] == s && Matches(s, raw);
    assert forall j :: 0 <= j < k ==> Live(grid')[j] == Live(grid)[j];
    FindGridSpec(grid', raw);
    var (i, a) := FindGrid(grid', raw).value;
    PutLive(grid', i, a, grid'[i][a]);
  }

  /** No write makes a volume label. */
  lemma UpdateKeepsNoLabel(grid: Grid, raw: RawName, s: Slot, e: DirEntry, other: RawName)
    requires Orderly(grid) && Shows(s, raw, e) && UpdateGrid(grid, raw, s).Some?
    requires NoLabel(Live(grid), other)
    ensures NoLabel(Live(UpdateGrid(grid, raw, s).value), other)
  {
    UpdatePlaced(grid, raw, s, e);
    assert !IsLabel(s);
  }

  // ---------- names stay unique ----------

  /** No two slots show the same name. */
  ghost predicate NamesUnique(slots: seq<Slot>) {
    forall j, k :: 0 <= j < k < |slots| && KeyOf(slots[j]).Some? ==> KeyOf(slots[j]) != KeyOf(slots[k])
  }

  /** A slot of a name keeps the names unique exactly when no other slot shows that name. */
  lemma PutUnique(slots: seq<Slot>, k: nat, s: Slot)
    requires k < |slots| && NamesUnique(slots) && KeyOf(s).Some?
    ensures NamesUnique(slots[k := s]) <==> forall j :: 0 <= j < |slots| && j != k ==> KeyOf(slots[j]) != KeyOf(s)
  {
    var after := slots[k := s];
    if NamesUnique(after) {
      forall j | 0 <= j < |slots| && j != k ensures KeyOf(slots[j]) != KeyOf(s) {
        assert after[j] == slots[j] && after[k] == s;
      }
    }
  }

  lemma AppendUnique(slots: seq<Slot>, s: Slot)
    requires NamesUnique(slots) && forall j :: 0 <= j < |slots| ==> KeyOf(slots[j]) != KeyOf(s)
    ensures NamesUnique(slots + [s])
  {
  }

  /** A write makes a second slot of one name exactly when it overwrites a volume label in front of an entry of that
      name. */
  lemma UpdateKeepsUnique(grid: Grid, raw: RawName, s: Slot, e: DirEntry)
    requires Orderly(grid) && Carries(s, raw, e)
    requires UpdateGrid(grid, raw, s).Some? && NamesUnique(Live(grid))
    ensures NamesUnique(Live(UpdateGrid(grid, raw, s).value))
            <==> !(LabelHit(grid, raw) && Decode(raw) in ByName(Live(grid)))
  {
    if raw[0] == END_MARK {
      UpdateCuts(grid, raw, s);
      NulIsNotFound(grid, raw);
    } else {
      ShowsKey(s, raw, e);
      UpdatePlaced(grid, raw, s, e);
      ByNameMember(Live(grid), Decode(raw));
      KeyElsewhere(grid, raw);
      hide NamesClean, Decode, KeyOf, ByName, Orderly, LabelHit, Place, PlaceIndex;
      var k, slots := PlaceIndex(grid, raw), Live(grid);
      if k < |slots| {
        PutUnique(slots, k, s);
      } else {
        AppendUnique(slots, s);
      }
    }
  }

  /** When names are unique, another slot than the one taken shows the name exactly behind a label. */
  lemma KeyElsewhere(grid: Grid, raw: RawName)
    requires Clean(raw) && NamesClean(Live(grid)) && Place(grid, raw).Some? && NamesUnique(Live(grid))
    ensures (exists j :: 0 <= j < |Live(grid)| && j != PlaceIndex(grid, raw)
                         && KeyOf(Live(grid)[j]) == Some(Decode(raw)))
            <==> LabelHit(grid, raw) && Decode(raw) in ByName(Live(grid))
  {
    var slots, key := Live(grid), Decode(raw);
    RawSearchIsLookup(grid, raw);
    FindGridSpec(grid, raw);
    ByNameMember(slots, key);
    hide Decode, KeyOf, NamesClean, ByName;
    if FindGrid(grid, raw).Some? {
      var (i, a) := FindGrid(grid, raw).value;
      PutLive(grid, i, a, grid[i][a]);
    }
  }

  // ---------- the listing ----------

  /** `after` is `before` with `e` in the place of `prior`, or inserted when there is no prior entry. */
  ghost predicate EntryReplaced(before: seq<DirEntry>, after: seq<DirEntry>, prior: Option<DirEntry>, e: DirEntry,
                                at: nat) {
    && at <= |before| && at < |after| && after[at] == e && after[..at] == before[..at]
    && match prior
       case None => after[at + 1..] == before[at..]
       case Some(p) => at < |before| && before[at] == p && after[at + 1..] == before[at + 1..]
  }

  /** How many entries the slots before the `k`-th one show. */
  function ListedBefore(slots: seq<Slot>, k: nat): nat {
    if k <= |slots| then |Listing(slots[..k])| else |Listing(slots)|
  }

  /** The entry that the written one replaces: that of its name, if no volume label is in front of it. */
  function Replaced(grid: Grid, raw: RawName): Option<DirEntry> {
    if LabelHit(grid, raw) then None else Get(ByName(Live(grid)), Decode(raw))
  }

  /** Slot `a` of row `i` is the first one with those raw bytes, or the first free one when no live slot has them. */
  ghost predicate IsPlace(grid: Grid, raw: RawName, i: nat, a: nat) {
    && i < |grid| && a < |grid[i]|
    && if HasMatch(Live(grid), raw)
       then Matches(grid[i][a], raw) && FlatIndex(grid, i, a) < |Live(grid)|
            && forall j :: 0 <= j < FlatIndex(grid, i, a) ==> !Matches(Live(grid)[j], raw)
       else IsFree(grid[i][a]) && NoFreeBefore(grid, i, a)
  }

  lemma PlaceIsFirst(grid: Grid, raw: RawName)
    requires Place(grid, raw).Some?
    ensures IsPlace(grid, raw, Place(grid, raw).value.0, Place(grid, raw).value.1)
  {
    FindGridSpec(grid, raw);
    FreeGridSpec(grid);
    if FindGrid(grid, raw).Some? {
      var (i, a) := FindGrid(grid, raw).value;
      PutLive(grid, i, a, grid[i][a]);
      assert Matches(Live(grid)[FlatIndex(grid, i, a)], raw);
    }
  }

  /** The listing changes at `Place`: after the entries of the slots before it. */
  ghost predicate ListingUpdated(grid: Grid, raw: RawName, after: seq<DirEntry>, e: DirEntry) {
    && Place(grid, raw).Some?
    && IsPlace(grid, raw, Place(grid, raw).value.0, Place(grid, raw).value.1)
    && EntryReplaced(Listing(Live(grid)), after, Replaced(grid, raw), e,
                     ListedBefore(Live(grid), PlaceIndex(grid, raw)))
  }

  lemma ListingPut(slots: seq<Slot>, k: nat, s: Slot, e: DirEntry)
    requires k < |slots| && ParseSlot(s) == Some(e)
    ensures EntryReplaced(Listing(slots), Listing(slots[k := s]), ParseSlot(slots[k]), e, ListedBefore(slots, k))
  {
    hide Listing, ParseSlot;
    ListingAround(slots, k);
    ListingAround(slots[k := s], k);
    assert slots[k := s][..k] == slots[..k] && slots[k := s][k + 1..] == slots[k + 1..];
  }

  lemma ListingAround(slots: seq<Slot>, k: nat)
    requires k < |slots|
    ensures Listing(slots)
            == Listing(slots[..k])
               + ((match ParseSlot(slots[k]) case None => [] case Some(e) => [e]) + Listing(slots[k + 1..]))
  {
    var pre, rest := slots[..k], slots[k..];
    assert slots == pre + rest;
    assert rest[1..] == slots[k + 1..];
    ListingConcat(pre, rest);
  }

  lemma ListingAppended(slots: seq<Slot>, s: Slot, e: DirEntry)
    requires ParseSlot(s) == Some(e)
    ensures EntryReplaced(Listing(slots), Listing(slots + [s]), None, e, ListedBefore(slots, |slots|))
  {
    ListingConcat(slots, [s]);
    ListingOne(s);
    hide Listing, ParseSlot, EntryReplaced;
    assert slots[..|slots|] == slots;
    EntryAppended(Listing(slots), e);
  }

  lemma EntryAppended(before: seq<DirEntry>, e: DirEntry)
    ensures EntryReplaced(before, before + [e], None, e, |before|)
  {
  }

  /** The entry at the place taken is the one that the name map holds, or there is none. */
  lemma PlaceEntry(grid: Grid, raw: RawName)
    requires Clean(raw) && NamesClean(Live(grid)) && Place(grid, raw).Some?
    ensures PlaceIndex(grid, raw) < |Live(grid)| ==>
              ParseSlot(Live(grid)[PlaceIndex(grid, raw)]) == Replaced(grid, raw)
    ensures PlaceIndex(grid, raw) >= |Live(grid)| ==> Replaced(grid, raw) == None
  {
    RawSearchIsLookup(grid, raw);
    FindGridSpec(grid, raw);
    FreeGridSpec(grid);
    hide ParseSlot, NamesClean, ByName;
    var (i, a) := Place(grid, raw).value;
    if grid[i][a][0] != END_MARK {
      PutLive(grid, i, a, grid[i][a]);
      if FindGrid(grid, raw).None? { FreeShowsNothing(grid[i][a]); }
    } else {
      CutLive(grid, i, a, grid[i]);
      assert grid[i := grid[i]] == grid;
    }
  }

  /** The listing changes by exactly the written entry, at exactly its place; under a name that starts with NUL it ends
      with the slots before that place. */
  lemma ListingAfterUpdate(grid: Grid, raw: RawName, s: Slot, e: DirEntry)
    requires Orderly(grid) && Carries(s, raw, e)
    requires UpdateGrid(grid, raw, s).Some?
    ensures var after := Listing(Live(UpdateGrid(grid, raw, s).value));
            if raw[0] == END_MARK then after == Listing(SlotsBefore(grid, raw))
            else ListingUpdated(grid, raw, after, e)
  {
    if raw[0] == END_MARK {
      UpdateCuts(grid, raw, s);
    } else {
      UpdatePlaced(grid, raw, s, e);
      PlaceIsFirst(grid, raw);
      PlaceEntry(grid, raw);
      hide IsPlace, EntryReplaced, Listing, Live, ByName, Decode, Orderly, NamesClean, KeyOf, Replaced, Place,
        PlaceIndex, ParseSlot;
      var k, slots := PlaceIndex(grid, raw), Live(grid);
      if k < |slots| {
        ListingPut(slots, k, s, e);
      } else {
        ListingAppended(slots, s, e);
      }
    }
  }
}

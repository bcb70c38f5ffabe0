/** A directory as rows of 32-byte slots, one row per cluster, and the names a reader finds in it. */
module Directories {
  import opened Wrappers
  import opened Bytes
  import opened Names
  import opened DirEntries

  type Row = seq<Slot>
  type Grid = seq<Row>

  /** The full 32-byte chunks of a cluster; a shorter tail is never looked at. */
  function Chunks(data: seq<byte>): (row: Row)
    ensures |row| == |data| / SLOT_SIZE
  {
    seq(|data| / SLOT_SIZE, i requires 0 <= i < |data| / SLOT_SIZE => data[SLOT_SIZE * i..SLOT_SIZE * i + SLOT_SIZE])
  }

  lemma ChunksSplice(data: seq<byte>, a: nat, s: Slot)
    requires a < |data| / SLOT_SIZE
    ensures Chunks(Splice(data, SLOT_SIZE * a, s)) == Chunks(data)[a := s]
  {
    var data' := Splice(data, SLOT_SIZE * a, s);
    forall b | 0 <= b < |data| / SLOT_SIZE ensures Chunks(data')[b] == if b == a then s else Chunks(data)[b] {
      assert b < a ==> SLOT_SIZE * b + SLOT_SIZE <= SLOT_SIZE * a;
      assert a < b ==> SLOT_SIZE * a + SLOT_SIZE <= SLOT_SIZE * b;
    }
  }

  /** Zeroing the byte just after slot `a` marks the next slot of the row, if there is one, as the end. */
  lemma ChunksMark(data: seq<byte>, a: nat)
    requires a < |data| / SLOT_SIZE && SLOT_SIZE * a + SLOT_SIZE < |data|
    ensures Chunks(Splice(data, SLOT_SIZE * a + SLOT_SIZE, [END_MARK])) == MarkAfter(Chunks(data), a)
  {
    var data' := Splice(data, SLOT_SIZE * a + SLOT_SIZE, [END_MARK]);
    forall b | 0 <= b < |data| / SLOT_SIZE
      ensures Chunks(data')[b] == if b == a + 1 then Chunks(data)[b][0 := END_MARK] else Chunks(data)[b]
    {
      var at := SLOT_SIZE * b;
      forall k | 0 <= k < SLOT_SIZE
        ensures Chunks(data')[b][k] == if b == a + 1 && k == 0 then END_MARK else Chunks(data)[b][k]
      {
        assert Chunks(data')[b][k] == data'[at + k] && Chunks(data)[b][k] == data[at + k];
        assert at + k == SLOT_SIZE * a + SLOT_SIZE <==> b == a + 1 && k == 0;
      }
    }
  }

  function MarkAfter(row: Row, a: nat): (r: Row)
    requires a < |row|
    ensures |r| == |row|
  {
    if a + 1 < |row| then row[a + 1 := row[a + 1][0 := END_MARK]] else row
  }

  // ---------- what a reader sees ----------

  /** The slots before the end mark of a row. */
  function LiveRow(row: Row): (r: seq<Slot>)
    ensures r <= row
    ensures forall i :: 0 <= i < |r| ==> r[i][0] != END_MARK
    ensures |r| < |row| ==> row[|r|][0] == END_MARK
  {
    if row == [] || row[0][0] == END_MARK then [] else [row[0]] + LiveRow(row[1..])
  }

  /** The slots before the end mark of the whole directory. */
  function Live(grid: Grid): (r: seq<Slot>)
    ensures forall i :: 0 <= i < |r| ==> r[i][0] != END_MARK
  {
    if grid == [] then []
    else if |LiveRow(grid[0])| < |grid[0]| then LiveRow(grid[0])
    else grid[0] + Live(grid[1..])
  }

  /** The entries pushed by `list_dir_cluster`. */
  function Listing(slots: seq<Slot>): seq<DirEntry> {
    if slots == [] then []
    else (match ParseSlot(slots[0]) case None => [] case Some(e) => [e]) + Listing(slots[1..])
  }

  lemma {:induction false} ListingConcat(a: seq<Slot>, b: seq<Slot>)
    ensures Listing(a + b) == Listing(a) + Listing(b)
  {
    hide ParseSlot;
    if a == [] {
      assert a + b == b;
    } else {
      assert (a + b)[1..] == a[1..] + b;
      ListingConcat(a[1..], b);
    }
  }

  lemma ListingOne(s: Slot)
    ensures Listing([s]) == match ParseSlot(s) case None => [] case Some(e) => [e]
  {
    assert Listing([]) == [];
  }

  /** The comparison loop of `open_path`: the first entry with that upper-cased name. */
  function FindByName(entries: seq<DirEntry>, target: string): Option<DirEntry> {
    if entries == [] then None
    else if Upper(entries[0].name) == target then Some(entries[0])
    else FindByName(entries[1..], target)
  }

  /** The directory as a map from upper-cased names; the first entry of a name wins. */
  function ByName(slots: seq<Slot>): map<string, DirEntry> {
    if slots == [] then map[] else
      match ParseSlot(slots[0])
      case None => ByName(slots[1..])
      case Some(e) => ByName(slots[1..])[Upper(e.name) := e]
  }

  function Get<K, V>(m: map<K, V>, k: K): Option<V> {
    if k in m then Some(m[k]) else None
  }

  lemma {:induction false} ListingLookup(slots: seq<Slot>, target: string)
    ensures FindByName(Listing(slots), target) == Get(ByName(slots), target)
  {
    if slots != [] {
      ListingLookup(slots[1..], target);
      match ParseSlot(slots[0])
      case None =>
        assert Listing(slots) == Listing(slots[1..]);
      case Some(e) =>
        assert Listing(slots) == [e] + Listing(slots[1..]);
    }
  }

  // ---------- the raw search of the write path ----------

  predicate Matches(s: Slot, raw: RawName) {
    s[0] != DELETED && RawOf(s) == raw
  }

  datatype Scan = Hit(index: nat) | Stopped | Passed

  /** The inner loop of `find_dir_entry_offset_by_short_name`, from slot `i` on. */
  function FindRow(row: Row, raw: RawName, i: nat): (r: Scan)
    requires i <= |row|
    ensures r.Hit? ==> i <= r.index < |row|
    decreases |row| - i
  {
    if i == |row| then Passed
    else if row[i][0] == END_MARK then Stopped
    else if Matches(row[i], raw) then Hit(i)
    else FindRow(row, raw, i + 1)
  }

  function FindGrid(grid: Grid, raw: RawName): (r: Option<(nat, nat)>)
    ensures r.Some? ==> r.value.0 < |grid| && r.value.1 < |grid[r.value.0]|
  {
    if grid == [] then None else
      match FindRow(grid[0], raw, 0)
      case Hit(a) => Some((0, a))
      case Stopped => None
      case Passed =>
        match FindGrid(grid[1..], raw)
        case None => None
        case Some((i, a)) => Some((i + 1, a))
  }

  predicate IsFree(s: Slot) {
    s[0] == END_MARK || s[0] == DELETED
  }

  /** The inner loop of `find_free_dir_entry_slot`, from slot `i` on. */
  function FreeRow(row: Row, i: nat): (r: Option<nat>)
    requires i <= |row|
    ensures r.Some? ==> i <= r.value < |row| && IsFree(row[r.value])
    decreases |row| - i
  {
    if i == |row| then None
    else if IsFree(row[i]) then Some(i)
    else FreeRow(row, i + 1)
  }

  function FreeGrid(grid: Grid): (r: Option<(nat, nat)>)
    ensures r.Some? ==> r.value.0 < |grid| && r.value.1 < |grid[r.value.0]| && IsFree(grid[r.value.0][r.value.1])
  {
    if grid == [] then None else
      match FreeRow(grid[0], 0)
      case Some(a) => Some((0, a))
      case None =>
        match FreeGrid(grid[1..])
        case None => None
        case Some((i, a)) => Some((i + 1, a))
  }

  // ---------- positions ----------

  /** A scan from the start gets to slot `a` of row `i` without meeting an end mark before it. */
  ghost predicate Reached(grid: Grid, i: nat, a: nat) {
    && i < |grid| && a < |grid[i]|
    && if i == 0 then forall b :: 0 <= b < a ==> grid[0][b][0] != END_MARK
       else (forall b :: 0 <= b < |grid[0]| ==> grid[0][b][0] != END_MARK) && Reached(grid[1..], i - 1, a)
  }

  /** How many slots come before slot `a` of row `i`. */
  function FlatIndex(grid: Grid, i: nat, a: nat): nat
    requires i < |grid|
  {
    if i == 0 then a else |grid[0]| + FlatIndex(grid[1..], i - 1, a)
  }

  function PutRow(row: Row, a: nat, s: Slot): (r: Row)
    requires a < |row|
    ensures |r| == |row| && r == row[a := s]
  {
    row[..a] + [s] + row[a + 1..]
  }

  function PutSlot(grid: Grid, i: nat, a: nat, s: Slot): (r: Grid)
    requires i < |grid| && a < |grid[i]|
    ensures |r| == |grid|
  {
    grid[i := PutRow(grid[i], a, s)]
  }

  /** Writing a live slot over a live slot replaces it among the live slots. */
  lemma {:induction false} PutLive(grid: Grid, i: nat, a: nat, s: Slot)
    requires Reached(grid, i, a) && grid[i][a][0] != END_MARK && s[0] != END_MARK
    ensures FlatIndex(grid, i, a) < |Live(grid)|
    ensures Live(grid)[FlatIndex(grid, i, a)] == grid[i][a]
    ensures Live(PutSlot(grid, i, a, s)) == Live(grid)[FlatIndex(grid, i, a) := s]
    decreases i
  {
    hide LiveRow;
    var grid' := PutSlot(grid, i, a, s);
    if i == 0 {
      assert grid'[1..] == grid[1..];
      LiveRowPut(grid[0], a, s);
    } else {
      assert grid'[1..] == PutSlot(grid[1..], i - 1, a, s);
      PutLive(grid[1..], i - 1, a, s);
      LiveRowFull(grid[0]);
    }
  }

  lemma {:induction false} LiveRowPut(row: Row, a: nat, s: Slot)
    requires a < |row| && s[0] != END_MARK
    requires forall b :: 0 <= b <= a ==> row[b][0] != END_MARK
    ensures a < |LiveRow(row)| && LiveRow(row[a := s]) == LiveRow(row)[a := s]
    decreases a
  {
    if a > 0 {
      assert row[a := s][1..] == row[1..][a - 1 := s];
      LiveRowPut(row[1..], a - 1, s);
    } else {
      assert row[a := s][1..] == row[1..];
    }
  }

  lemma LiveRowFull(row: Row)
    requires forall b :: 0 <= b < |row| ==> row[b][0] != END_MARK
    ensures LiveRow(row) == row
  {
  }

  /** From the first end mark on, the first slot of every later row is an end mark too. */
  ghost predicate EndRule(grid: Grid) {
    forall i, j, b :: 0 <= i < j < |grid| && 0 <= b < |grid[i]| && grid[i][b][0] == END_MARK && grid[j] != [] ==>
      grid[j][0][0] == END_MARK
  }

  /** The write at an end mark: the slot, and the mark right after it in the same row. */
  function PutAtEnd(grid: Grid, i: nat, a: nat, s: Slot): (r: Grid)
    requires i < |grid| && a < |grid[i]|
    ensures |r| == |grid|
  {
    grid[i := MarkAfter(PutRow(grid[i], a, s), a)]
  }

  /** Writing over the end mark appends to the live slots: no stale slot becomes visible. */
  lemma {:induction false} PutAtEndLive(grid: Grid, i: nat, a: nat, s: Slot)
    requires Reached(grid, i, a) && grid[i][a][0] == END_MARK && s[0] != END_MARK && EndRule(grid)
    ensures |Live(grid)| == FlatIndex(grid, i, a)
    ensures Live(PutAtEnd(grid, i, a, s)) == Live(grid) + [s]
    decreases i
  {
    var grid' := PutAtEnd(grid, i, a, s);
    if i == 0 {
      LiveRowIs(grid[0], a);
      if a + 1 < |grid[0]| {
        LiveRowIs(grid'[0], a + 1);
      } else {
        LiveRowFull(grid'[0]);
        assert grid'[1..] == grid[1..];
        NothingAfterEnd(grid);
      }
    } else {
      assert grid'[1..] == PutAtEnd(grid[1..], i - 1, a, s);
      EndRuleTail(grid);
      PutAtEndLive(grid[1..], i - 1, a, s);
      LiveRowFull(grid[0]);
    }
  }

  lemma {:induction false} LiveRowIs(row: Row, a: nat)
    requires a < |row| && row[a][0] == END_MARK
    requires forall b :: 0 <= b < a ==> row[b][0] != END_MARK
    ensures LiveRow(row) == row[..a]
  {
    if a > 0 { LiveRowIs(row[1..], a - 1); }
  }

  lemma EndRuleTail(grid: Grid)
    requires grid != [] && EndRule(grid)
    ensures EndRule(grid[1..])
  {
    var rest := grid[1..];
    forall i, j, b | 0 <= i < j < |rest| && 0 <= b < |rest[i]| && rest[i][b][0] == END_MARK && rest[j] != []
      ensures rest[j][0][0] == END_MARK
    {
      assert grid[i + 1][b][0] == END_MARK && grid[j + 1] != [];
    }
  }

  /** After a first row that holds an end mark, no later row shows anything. */
  lemma {:induction false} NothingAfterEnd(grid: Grid)
    requires grid != [] && EndRule(grid) && exists b :: 0 <= b < |grid[0]| && grid[0][b][0] == END_MARK
    ensures Live(grid[1..]) == []
    decreases |grid|
  {
    if |grid| > 1 {
      var rest := grid[1..];
      assert rest[0] == grid[1];
      if rest[0] == [] {
        var next := [grid[0]] + rest[1..];
        forall i, j, b | 0 <= i < j < |next| && 0 <= b < |next[i]| && next[i][b][0] == END_MARK && next[j] != []
          ensures next[j][0][0] == END_MARK
        {
          assert next[j] == grid[j + 1];
          assert next[i] == if i == 0 then grid[0] else grid[i + 1];
        }
        var b :| 0 <= b < |grid[0]| && grid[0][b][0] == END_MARK;
        assert next[0][b][0] == END_MARK;
        NothingAfterEnd(next);
        assert next[1..] == rest[1..];
      } else {
        assert rest[0][0][0] == END_MARK;
      }
    }
  }

  /** Both kinds of write keep the end rule. */
  lemma PutKeepsEndRule(grid: Grid, i: nat, a: nat, s: Slot)
    requires EndRule(grid) && i < |grid| && a < |grid[i]| && s[0] != END_MARK && grid[i][a][0] != END_MARK
    ensures EndRule(PutSlot(grid, i, a, s))
  {
    var grid' := PutSlot(grid, i, a, s);
    forall p, q, b | 0 <= p < q < |grid'| && 0 <= b < |grid'[p]| && grid'[p][b][0] == END_MARK && grid'[q] != []
      ensures grid'[q][0][0] == END_MARK
    {
      assert grid[p][b][0] == END_MARK && grid[q] != [];
      assert grid[q][0][0] == END_MARK;
    }
  }

  lemma {:induction false} ReachedBefore(grid: Grid, i: nat, a: nat)
    requires Reached(grid, i, a)
    ensures forall p, b :: 0 <= p < i && 0 <= b < |grid[p]| ==> grid[p][b][0] != END_MARK
  {
    if i > 0 {
      ReachedBefore(grid[1..], i - 1, a);
      forall p, b | 0 <= p < i && 0 <= b < |grid[p]| ensures grid[p][b][0] != END_MARK {
        if p > 0 { assert grid[p] == grid[1..][p - 1]; }
      }
    }
  }

  lemma PutAtEndKeepsEndRule(grid: Grid, i: nat, a: nat, s: Slot)
    requires EndRule(grid) && Reached(grid, i, a) && grid[i][a][0] == END_MARK && s[0] != END_MARK
    ensures EndRule(PutAtEnd(grid, i, a, s))
  {
    var grid' := PutAtEnd(grid, i, a, s);
    ReachedBefore(grid, i, a);
    forall p, q, b | 0 <= p < q < |grid'| && 0 <= b < |grid'[p]| && grid'[p][b][0] == END_MARK && grid'[q] != []
      ensures grid'[q][0][0] == END_MARK
    {
      assert i <= p;
      assert grid'[q] == grid[q];
      assert grid[i][a][0] == END_MARK && grid[q] != [];
    }
  }

  // ---------- what the scans find ----------

  ghost predicate StopsAt(row: Row, raw: RawName, i: nat, e: nat) {
    && i <= e < |row| && row[e][0] == END_MARK
    && forall b :: i <= b < e ==> row[b][0] != END_MARK && !Matches(row[b], raw)
  }

  lemma {:induction false} FindRowSpec(row: Row, raw: RawName, i: nat)
    requires i <= |row|
    ensures var r := FindRow(row, raw, i);
            && (r.Hit? ==> Matches(row[r.index], raw) && row[r.index][0] != END_MARK
                           && forall b :: i <= b < r.index ==> row[b][0] != END_MARK && !Matches(row[b], raw))
            && (r.Passed? ==> forall b :: i <= b < |row| ==> row[b][0] != END_MARK && !Matches(row[b], raw))
            && (r.Stopped? ==> exists e :: StopsAt(row, raw, i, e))
    decreases |row| - i
  {
    if i < |row| && row[i][0] != END_MARK && !Matches(row[i], raw) {
      FindRowSpec(row, raw, i + 1);
      if FindRow(row, raw, i).Stopped? {
        var e :| StopsAt(row, raw, i + 1, e);
        assert StopsAt(row, raw, i, e);
      }
    } else if i < |row| && row[i][0] == END_MARK {
      assert StopsAt(row, raw, i, i);
    }
  }

  /** The raw search finds the first live slot with those bytes, or reports that there is none. */
  lemma {:induction false} FindGridSpec(grid: Grid, raw: RawName)
    ensures var r := FindGrid(grid, raw);
            && (r.None? ==> forall j :: 0 <= j < |Live(grid)| ==> !Matches(Live(grid)[j], raw))
            && (r.Some? ==> var (i, a) := r.value;
                            && Reached(grid, i, a) && Matches(grid[i][a], raw) && grid[i][a][0] != END_MARK
                            && FlatIndex(grid, i, a) < |Live(grid)|
                            && forall j :: 0 <= j < FlatIndex(grid, i, a) ==> !Matches(Live(grid)[j], raw))
  {
    if grid != [] {
      FindRowSpec(grid[0], raw, 0);
      match FindRow(grid[0], raw, 0)
      case Hit(a) =>
        LiveRowPut(grid[0], a, grid[0][a]);
      case Stopped =>
        var e :| StopsAt(grid[0], raw, 0, e);
        LiveRowIs(grid[0], e);
      case Passed =>
        LiveRowFull(grid[0]);
        FindGridSpec(grid[1..], raw);
    }
  }

  lemma {:induction false} FreeRowSpec(row: Row, i: nat)
    requires i <= |row|
    ensures var r := FreeRow(row, i);
            && (r.None? ==> forall b :: i <= b < |row| ==> !IsFree(row[b]))
            && (r.Some? ==> forall b :: i <= b < r.value ==> !IsFree(row[b]))
    decreases |row| - i
  {
    if i < |row| && !IsFree(row[i]) { FreeRowSpec(row, i + 1); }
  }

  /** No slot before slot `a` of row `i` is free. */
  ghost predicate NoFreeBefore(grid: Grid, i: nat, a: nat) {
    forall p, b :: 0 <= p < |grid| && 0 <= b < |grid[p]| && (p < i || (p == i && b < a)) ==> !IsFree(grid[p][b])
  }

  /** The free-slot scan finds the first free slot, and finds one exactly when there is one. */
  lemma {:induction false} FreeGridSpec(grid: Grid)
    ensures FreeGrid(grid).Some? <==> exists i, a :: 0 <= i < |grid| && 0 <= a < |grid[i]| && IsFree(grid[i][a])
    ensures FreeGrid(grid).Some? ==>
              var (i, a) := FreeGrid(grid).value;
              Reached(grid, i, a) && IsFree(grid[i][a]) && NoFreeBefore(grid, i, a)
  {
    if grid != [] {
      FreeRowSpec(grid[0], 0);
      if FreeRow(grid[0], 0).None? {
        FreeGridSpec(grid[1..]);
        if i, a :| 0 <= i < |grid| && 0 <= a < |grid[i]| && IsFree(grid[i][a]) {
          assert grid[1..][i - 1] == grid[i];
        }
        if FreeGrid(grid).Some? { NoFreeBeforeTail(grid, FreeGrid(grid).value.0, FreeGrid(grid).value.1); }
      }
    }
  }

  lemma NoFreeBeforeTail(grid: Grid, i: nat, a: nat)
    requires grid != [] && i > 0 && NoFreeBefore(grid[1..], i - 1, a)
    requires forall b :: 0 <= b < |grid[0]| ==> !IsFree(grid[0][b])
    ensures NoFreeBefore(grid, i, a)
  {
    forall p, b | 0 <= p < |grid| && 0 <= b < |grid[p]| && (p < i || (p == i && b < a)) ensures !IsFree(grid[p][b]) {
      if p > 0 { assert grid[p] == grid[1..][p - 1]; }
    }
  }

  // ---------- updates of the name map ----------

  function KeyOf(s: Slot): Option<string> {
    match ParseSlot(s) case None => None case Some(e) => Some(Upper(e.name))
  }

  /** Replacing the first slot of a name, or a slot that shows nothing, updates the map at that name. */
  lemma {:induction false} ByNameReplace(slots: seq<Slot>, k: nat, s: Slot, e: DirEntry)
    requires k < |slots| && ParseSlot(s) == Some(e)
    requires KeyOf(slots[k]) == None || KeyOf(slots[k]) == Some(Upper(e.name))
    requires forall j :: 0 <= j < k ==> KeyOf(slots[j]) != Some(Upper(e.name))
    ensures ByName(slots[k := s]) == ByName(slots)[Upper(e.name) := e]
    decreases k
  {
    if k == 0 {
      assert slots[k := s][1..] == slots[1..];
    } else {
      assert slots[k := s][1..] == slots[1..][k - 1 := s];
      ByNameReplace(slots[1..], k - 1, s, e);
      assert KeyOf(slots[0]) != Some(Upper(e.name));
    }
  }

  lemma {:induction false} ByNameAppend(slots: seq<Slot>, s: Slot, e: DirEntry)
    requires ParseSlot(s) == Some(e) && Upper(e.name) !in ByName(slots)
    ensures ByName(slots + [s]) == ByName(slots)[Upper(e.name) := e]
  {
    if slots == [] {
      assert slots + [s] == [s];
      assert ByName([]) == map[];
    } else {
      assert (slots + [s])[1..] == slots[1..] + [s];
      ByNameAppend(slots[1..], s, e);
    }
  }

  lemma {:induction false} ByNameMember(slots: seq<Slot>, key: string)
    ensures key in ByName(slots) <==> exists j :: 0 <= j < |slots| && KeyOf(slots[j]) == Some(key)
  {
    if slots != [] {
      ByNameMember(slots[1..], key);
      assert forall j :: 1 <= j < |slots| ==> slots[j] == slots[1..][j - 1];
      if j :| 0 <= j < |slots[1..]| && KeyOf(slots[1..][j]) == Some(key) {
        assert KeyOf(slots[j + 1]) == Some(key);
      }
    }
  }

  /** The map holds the first slot of each name. */
  lemma {:induction false} ByNameFirst(slots: seq<Slot>, k: nat)
    requires k < |slots| && ParseSlot(slots[k]).Some?
    requires forall j :: 0 <= j < k ==> KeyOf(slots[j]) != KeyOf(slots[k])
    ensures Get(ByName(slots), KeyOf(slots[k]).value) == ParseSlot(slots[k])
  {
    if k > 0 {
      ByNameFirst(slots[1..], k - 1);
      assert KeyOf(slots[0]) != KeyOf(slots[k]);
    }
  }

  // ---------- names in an orderly directory ----------

  predicate IsDotName(key: string) {
    key == "." || key == ".."
  }

  /** Every entry has a clean raw name, except the self and parent entries. */
  ghost predicate NamesClean(slots: seq<Slot>) {
    forall j :: 0 <= j < |slots| && ParseSlot(slots[j]).Some? ==>
      Clean(RawOf(slots[j])) || RawOf(slots[j]) == DOT_ENTRY || RawOf(slots[j]) == DOTDOT_ENTRY
  }

  /** No volume label carries this raw name. */
  ghost predicate NoLabel(slots: seq<Slot>, raw: RawName) {
    forall j :: 0 <= j < |slots| && Matches(slots[j], raw) ==> !IsLabel(slots[j])
  }

  /** A name that no directory shows: names are upper-cased before they are compared. */
  const NO_NAME: string := "no name"

  lemma NoNameIsNotUpper(s: string)
    ensures Upper(s) != NO_NAME
  {
    if s != "" { assert Upper(s)[0] == UpperChar(s[0]) != NO_NAME[0]; }
  }

  lemma NoNameIsNotShown(slots: seq<Slot>)
    ensures NO_NAME !in ByName(slots) && !IsDotName(NO_NAME)
  {
    ByNameMember(slots, NO_NAME);
    forall j | 0 <= j < |slots| ensures KeyOf(slots[j]) != Some(NO_NAME) {
      if ParseSlot(slots[j]).Some? { NoNameIsNotUpper(ParseSlot(slots[j]).value.name); }
    }
  }

  lemma DotDecodes()
    ensures Upper(Decode(DOT_ENTRY)) == "." && Upper(Decode(DOTDOT_ENTRY)) == ".."
  {
    TrimEndUnique(DOT_ENTRY[..8], 1);
    TrimEndUnique(DOT_ENTRY[8..], 0);
    TrimEndUnique(DOTDOT_ENTRY[..8], 2);
    TrimEndUnique(DOTDOT_ENTRY[8..], 0);
    assert Chars([DOT]) == "." && Chars([DOT, DOT]) == "..";
    assert DOT_ENTRY[..8][..1] == [DOT] && DOTDOT_ENTRY[..8][..2] == [DOT, DOT];
  }

  /** No clean raw name is read as `.` or `..`. */
  lemma CleanIsNotDot(raw: RawName)
    requires Clean(raw)
    ensures !IsDotName(Decode(raw))
  {
    DotMarksExtension(raw);
    CleanHasNoDot(raw[8..]);
    var b, e := Chars(TrimEnd(raw[..8])), Chars(TrimEnd(raw[8..]));
    if e != "" {
      assert Decode(raw) == b + "." + e;
      assert Decode(raw)[|b| + 1] == e[0] && e[0] in e;
      assert |Decode(raw)| == 2 ==> Decode(raw)[1] != '.' by {
        assert b != "" ==> Decode(raw)[0] == b[0] && b[0] in b;
      }
    }
  }

  /** On a live slot of an orderly directory, a name is shown exactly by the raw bytes that no label carries. */
  lemma SlotLookupsAgree(s: Slot, raw: RawName)
    requires s[0] != END_MARK && Clean(raw)
    requires ParseSlot(s).Some? ==> Clean(RawOf(s)) || RawOf(s) == DOT_ENTRY || RawOf(s) == DOTDOT_ENTRY
    ensures KeyOf(s) == Some(Decode(raw)) <==> Matches(s, raw) && !IsLabel(s)
  {
    if ParseSlot(s).Some? {
      if Clean(RawOf(s)) {
        UpperOfClean(RawOf(s));
        if KeyOf(s) == Some(Decode(raw)) { DecodeInjective(RawOf(s), raw); }
      } else {
        DotDecodes();
        CleanIsNotDot(raw);
      }
    }
  }

  /** The raw search stops at a volume label: a slot with those bytes that shows no entry. */
  predicate LabelHit(grid: Grid, raw: RawName) {
    && FindGrid(grid, raw).Some?
    && ParseSlot(grid[FindGrid(grid, raw).value.0][FindGrid(grid, raw).value.1]).None?
  }

  /** The raw search and the name lookup of the read path find the same slot, or both find none; unless the search
      stops at a volume label, which is then in front of every slot of that name. */
  lemma RawSearchIsLookup(grid: Grid, raw: RawName)
    requires Clean(raw) && NamesClean(Live(grid))
    ensures var r := FindGrid(grid, raw);
            && (r.None? ==> Decode(raw) !in ByName(Live(grid)))
            && (r.Some? ==>
                  var (i, a) := r.value;
                  && FlatIndex(grid, i, a) < |Live(grid)|
                  && (forall j :: 0 <= j < FlatIndex(grid, i, a) ==> KeyOf(Live(grid)[j]) != Some(Decode(raw)))
                  && if LabelHit(grid, raw) then IsLabel(grid[i][a]) && KeyOf(grid[i][a]) == None
                     else KeyOf(grid[i][a]) == Some(Decode(raw))
                          && Get(ByName(Live(grid)), Decode(raw)) == ParseSlot(grid[i][a]))
  {
    var slots := Live(grid);
    FindGridSpec(grid, raw);
    forall j | 0 <= j < |slots|
      ensures KeyOf(slots[j]) == Some(Decode(raw)) <==> Matches(slots[j], raw) && !IsLabel(slots[j])
    {
      SlotLookupsAgree(slots[j], raw);
    }
    match FindGrid(grid, raw)
    case None =>
      ByNameMember(slots, Decode(raw));
    case Some((i, a)) =>
      PutLive(grid, i, a, grid[i][a]);
      if !LabelHit(grid, raw) { ByNameFirst(slots, FlatIndex(grid, i, a)); }
  }

  /** No live slot starts with NUL, so a raw name that does is never found. */
  lemma NulIsNotFound(grid: Grid, raw: RawName)
    requires raw[0] == END_MARK
    ensures FindGrid(grid, raw) == None && !LabelHit(grid, raw)
  {
    FindGridSpec(grid, raw);
    assert forall s: Slot :: Matches(s, raw) ==> s[0] == RawOf(s)[0] == END_MARK;
  }

  lemma NoLabelNoHit(grid: Grid, raw: RawName)
    requires NoLabel(Live(grid), raw)
    ensures !LabelHit(grid, raw)
  {
    FindGridSpec(grid, raw);
    if FindGrid(grid, raw).Some? {
      var (i, a) := FindGrid(grid, raw).value;
      PutLive(grid, i, a, grid[i][a]);
      assert Matches(Live(grid)[FlatIndex(grid, i, a)], raw);
    }
  }
}

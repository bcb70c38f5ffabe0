/** The two views of a FAT32 image: a read-only one, and one that rewrites the buffer in place. */
module Fat32View {
  import opened Wrappers
  import opened Bytes
  import opened Names
  import opened DirEntries
  import opened Chains
  import opened Geometry
  import opened Tables
  import opened Clusters
  import opened Directories
  import opened Paths
  import opened Engine

  lemma PrependAssoc<T>(a: seq<T>, b: seq<T>, r: Result<seq<T>>)
    ensures Prepend(a, Prepend(b, r)) == Prepend(a + b, r)
  {
    if r.Ok? { assert a + (b + r.value) == (a + b) + r.value; }
  }

  lemma PrependNothing<T>(r: Result<seq<T>>)
    ensures Prepend([], r) == r
  {
    if r.Ok? { assert [] + r.value == r.value; }
  }

  lemma PrependEmpty<T>(s: seq<T>)
    ensures Prepend(s, Ok([])) == Ok(s)
  {
    assert s + [] == s;
  }

  // ---------- one round of each chain loop ----------

  lemma ListRound(g: Geo, d: seq<byte>, ch: seq<nat>, k: nat)
    requires k < |ch|
    ensures var here := ReadCluster(g, d, ch[k]);
            ListChain(g, d, ch[k..])
            == if here.Err? then Err(here.error)
               else if |LiveRow(Chunks(here.value))| < |Chunks(here.value)|
                 then Ok(Listing(LiveRow(Chunks(here.value))))
               else Prepend(Listing(LiveRow(Chunks(here.value))), ListChain(g, d, ch[k + 1..]))
  {
    assert ch[k..][0] == ch[k] && ch[k..][1..] == ch[k + 1..];
    if ReadCluster(g, d, ch[k]).Ok? {
      var row := Chunks(ReadCluster(g, d, ch[k]).value);
      assert |LiveRow(row)| == |row| ==> LiveRow(row) == row;
    }
  }

  lemma ReadRound(g: Geo, d: seq<byte>, ch: seq<nat>, k: nat, n: nat)
    requires k < |ch|
    ensures var here := ReadCluster(g, d, ch[k]);
            ReadChain(g, d, ch[k..], n)
            == if here.Err? then Err(here.error)
               else if n <= g.clusterSize then Ok(here.value[..Min(n, g.clusterSize)])
               else Prepend(here.value[..Min(n, g.clusterSize)], ReadChain(g, d, ch[k + 1..], n - g.clusterSize))
  {
    assert ch[k..][0] == ch[k] && ch[k..][1..] == ch[k + 1..];
  }

  lemma FillRound(g: Geo, d: seq<byte>, ch: seq<nat>, k: nat, content: seq<byte>)
    requires k < |ch|
    ensures var off := WholeCluster(g, |d|, ch[k]);
            FillChain(g, d, ch[k..], content)
            == if off.Err? then Outcome(Err(off.error), d)
               else if |content| <= g.clusterSize
                 then Outcome(Ok(()), Splice(d, off.value, Padded(content, g.clusterSize)))
               else FillChain(g, Splice(d, off.value, Padded(content, g.clusterSize)), ch[k + 1..],
                              content[g.clusterSize..])
  {
    assert ch[k..][0] == ch[k] && ch[k..][1..] == ch[k + 1..];
  }

  // ---------- slots of one cluster ----------

  lemma ListingPush(row: Row, i: nat)
    requires i < |row|
    ensures Listing(row[..i + 1]) == Listing(row[..i]) + match ParseSlot(row[i]) case None => [] case Some(e) => [e]
  {
    assert row[..i + 1] == row[..i] + [row[i]];
    ListingConcat(row[..i], [row[i]]);
    ListingOne(row[i]);
  }

  /** The slot loop of `list_dir_cluster` over one cluster. */
  method ListSlots(data: seq<byte>) returns (entries: seq<DirEntry>, endSeen: bool)
    ensures entries == Listing(LiveRow(Chunks(data)))
    ensures endSeen <==> |LiveRow(Chunks(data))| < |Chunks(data)|
  {
    ghost var row := Chunks(data);
    entries, endSeen := [], false;
    var i := 0;
    while SLOT_SIZE * i < |data|
      invariant 0 <= i <= |row| && !endSeen
      invariant forall b :: 0 <= b < i ==> row[b][0] != END_MARK
      invariant entries == Listing(row[..i])
    {
      var chunk := data[SLOT_SIZE * i..Min(SLOT_SIZE * i + SLOT_SIZE, |data|)];
      if |chunk| < SLOT_SIZE {
        break;
      }
      assert chunk == row[i];
      if chunk[0] == END_MARK {
        endSeen := true;
        break;
      }
      var e := ParseEntry(chunk);
      if e.Some? {
        entries := entries + [e.value];
      }
      ListingPush(row, i);
      i := i + 1;
    }
    LiveUpTo(row, i, endSeen);
  }

  lemma LiveUpTo(row: Row, i: nat, atEnd: bool)
    requires i <= |row| && forall b :: 0 <= b < i ==> row[b][0] != END_MARK
    requires if atEnd then i < |row| && row[i][0] == END_MARK else i == |row|
    ensures LiveRow(row) == row[..i]
  {
    if atEnd {
      LiveRowIs(row, i);
    } else {
      LiveRowFull(row);
      assert row[..i] == row;
    }
  }

  /** The name loop of `open_path`. */
  method FindEntryByName(entries: seq<DirEntry>, target: string) returns (found: Option<DirEntry>)
    ensures found == FindByName(entries, target)
  {
    for i := 0 to |entries|
      invariant FindByName(entries, target) == FindByName(entries[i..], target)
    {
      var name := NormalizeName(entries[i].name);
      if name == target {
        return Some(entries[i]);
      }
    }
    found := None;
  }

  // ---------- read-only view ----------

  /** The view keeps the offsets that the header parameters determine. */
  datatype Fat32 = Fat32(disk: seq<byte>, geo: Geo) {

    /** `Fat32::new`. */
    static function New(disk: seq<byte>): Result<Fat32> {
      var p :- ParseBpb(disk);
      Ok(Fat32(disk, GeoOf(p)))
    }

    method FollowChain(start: nat, maxClusters: nat) returns (r: Result<seq<nat>>)
      ensures r == if start < FIRST_CLUSTER then Err(InvalidCluster) else FollowFrom(geo, disk, start, maxClusters)
    {
      if start < FIRST_CLUSTER {
        return Err(InvalidCluster);
      }
      var chain: seq<nat> := [];
      var current: nat := start;
      PrependNothing(FollowFrom(geo, disk, start, maxClusters));
      for i := 0 to maxClusters
        invariant FollowFrom(geo, disk, start, maxClusters)
                  == Prepend(chain, FollowFrom(geo, disk, current, maxClusters - i))
      {
        ghost var before := chain;
        chain := chain + [current];
        var next :- ReadFatEntry(geo, disk, current);
        if next >= EOC_MIN {
          return Ok(chain);
        }
        if next < FIRST_CLUSTER {
          return Err(InvalidCluster);
        }
        PrependAssoc(before, [current], FollowFrom(geo, disk, next, maxClusters - i - 1));
        current := next;
      }
      PrependEmpty(chain);
      return Ok(chain);
    }

    method ListDirCluster(start: nat) returns (r: Result<seq<DirEntry>>)
      ensures r == ListDir(geo, disk, start)
    {
      var entries: seq<DirEntry> := [];
      var chain :- FollowChain(start, MAX_CHAIN);
      var endSeen := false;
      PrependNothing(ListChain(geo, disk, chain));
      for k := 0 to |chain|
        invariant !endSeen ==> ListChain(geo, disk, chain) == Prepend(entries, ListChain(geo, disk, chain[k..]))
        invariant endSeen ==> ListChain(geo, disk, chain) == Ok(entries)
      {
        if endSeen {
          break;
        }
        ListRound(geo, disk, chain, k);
        var data :- ReadCluster(geo, disk, chain[k]);
        var pushed, ended := ListSlots(data);
        PrependAssoc(entries, pushed, ListChain(geo, disk, chain[k + 1..]));
        entries, endSeen := entries + pushed, ended;
      }
      PrependEmpty(entries);
      return Ok(entries);
    }

    method OpenPath(path: string) returns (r: Result<Option<DirEntry>>)
      ensures r == Engine.OpenPath(geo, disk, path)
    {
      if !Absolute(path) {
        return Err(Other);
      }
      if path == "/" {
        return Ok(None);
      }
      var current := geo.root;
      var last: Option<DirEntry> := None;
      var parts := Components(path);
      for i := 0 to |parts|
        invariant OpenFrom(geo, disk, geo.root, parts, None) == OpenFrom(geo, disk, current, parts[i..], last)
      {
        var target := NormalizeName(parts[i]);
        var entries :- ListDirCluster(current);
        var found := FindEntryByName(entries, target);
        match found {
          case Some(e) => current, last := e.firstCluster, Some(e);
          case None => return Ok(None);
        }
      }
      return Ok(last);
    }

    method ReadFile(e: DirEntry) returns (r: Result<seq<byte>>)
      ensures r == Engine.ReadFile(geo, disk, e)
    {
      if !e.IsFile() {
        return Err(NotAFile);
      }
      var remaining := e.size;
      if remaining == 0 {
        return Ok([]);
      }
      if e.firstCluster < FIRST_CLUSTER {
        return Err(InvalidCluster);
      }
      var out: seq<byte> := [];
      var chain :- FollowChain(e.firstCluster, MAX_CHAIN);
      PrependNothing(ReadChain(geo, disk, chain, remaining));
      for k := 0 to |chain|
        invariant remaining > 0
        invariant ReadChain(geo, disk, chain, e.size) == Prepend(out, ReadChain(geo, disk, chain[k..], remaining))
      {
        ReadRound(geo, disk, chain, k, remaining);
        var data :- ReadCluster(geo, disk, chain[k]);
        var take := Min(remaining, geo.clusterSize);
        PrependAssoc(out, data[..take], ReadChain(geo, disk, chain[k + 1..], remaining - take));
        out := out + data[..take];
        if remaining == take {
          return Ok(out);
        }
        remaining := remaining - take;
      }
      PrependEmpty(out);
      return Ok(out);
    }

    method ReadFileByPath(path: string) returns (r: Result<Option<seq<byte>>>)
      ensures r == Engine.ReadFileByPath(geo, disk, path)
    {
      var found :- OpenPath(path);
      match found {
        case None => return Ok(None);
        case Some(e) =>
          if !e.IsFile() {
            return Err(NotAFile);
          }
          var bytes :- ReadFile(e);
          return Ok(Some(bytes));
      }
    }

    method ListDirPath(path: string) returns (r: Result<seq<DirEntry>>)
      ensures r == Engine.ListDirPath(geo, disk, path)
    {
      if path == "/" {
        r := ListDirCluster(geo.root);
        return r;
      }
      var found :- OpenPath(path);
      match found {
        case None => return Err(PathNotFound);
        case Some(e) =>
          if !e.IsDir() {
            return Err(NotADirectory);
          }
          r := ListDirCluster(e.firstCluster);
          return r;
      }
    }

    // The two searches of the write path only read.

    method FindDirEntryOffset(dirCluster: nat, raw: RawName) returns (r: Result<Found>)
      ensures r == FindEntry(geo, disk, dirCluster, raw)
    {
      var chain :- FollowChain(dirCluster, MAX_CHAIN);
      for k := 0 to |chain|
        invariant FindInChain(geo, disk, chain, raw) == FindInChain(geo, disk, chain[k..], raw)
      {
        var here :- FindInCluster(chain[k], raw);
        if here.Some? {
          return Ok(here.value);
        }
      }
      return Ok(Found(None, None));
    }

    method FindInCluster(c: nat, raw: RawName) returns (r: Result<Option<Found>>)
      ensures r == FindHere(geo, disk, c, raw)
    {
      var off :- WholeCluster(geo, |disk|, c);
      var scan, e := ScanSlots(disk[off..off + geo.clusterSize], raw);
      match scan {
        case Hit(a) => return Ok(Some(Found(Some(off + SLOT_SIZE * a), e)));
        case Stopped => return Ok(Some(Found(None, None)));
        case Passed => return Ok(None);
      }
    }

    method FindFreeDirEntrySlot(dirCluster: nat) returns (r: Result<FreeSlot>)
      ensures r == FindFree(geo, disk, dirCluster)
    {
      var chain :- FollowChain(dirCluster, MAX_CHAIN);
      for k := 0 to |chain|
        invariant FreeInChain(geo, disk, chain) == FreeInChain(geo, disk, chain[k..])
      {
        var here :- FindFreeInCluster(chain[k]);
        if here.Some? {
          return Ok(here.value);
        }
      }
      return Err(NoSpaceLeft);
    }

    method FindFreeInCluster(c: nat) returns (r: Result<Option<FreeSlot>>)
      ensures r == FreeHere(geo, disk, c)
    {
      var off :- WholeCluster(geo, |disk|, c);
      var slot, isEnd := ScanFreeSlots(disk[off..off + geo.clusterSize]);
      match slot {
        case Some(a) => return Ok(Some(FreeSlot(off + SLOT_SIZE * a, isEnd, off + geo.clusterSize)));
        case None => return Ok(None);
      }
    }
  }

  // ---------- read-write view ----------

  class Fat32Mut {
    const disk: array<byte>
    const geo: Geo

    /** What `Fat32Mut::new` has checked: neither factor of the cluster size is zero. */
    ghost predicate Valid() {
      geo.clusterSize > 0
    }

    constructor (disk: array<byte>, geo: Geo)
      ensures this.disk == disk && this.geo == geo
    {
      this.disk := disk;
      this.geo := geo;
    }

    /** `Fat32Mut::new`. */
    static method New(disk: array<byte>) returns (r: Result<Fat32Mut>)
      ensures ParseBpb(disk[..]).Err? ==> r == Err(ParseBpb(disk[..]).error)
      ensures ParseBpb(disk[..]).Ok? ==>
                r.Ok? && fresh(r.value) && r.value.disk == disk && r.value.geo == GeoOf(ParseBpb(disk[..]).value)
                  && r.value.Valid()
    {
      var p :- ParseBpb(disk[..]);
      ClusterSizePositive(p.bytesPerSector, p.sectorsPerCluster);
      var view := new Fat32Mut(disk, GeoOf(p));
      return Ok(view);
    }

    /** `as_read`. */
    function AsRead(): Fat32
      reads disk
    {
      Fat32(disk[..], geo)
    }

    method WriteFatEntryAll(cluster: nat, value: nat) returns (r: Result<()>)
      modifies disk
      ensures Outcome(r, disk[..]) == SetEntry(geo, old(disk[..]), cluster, value, 0)
    {
      var bytes := ToLe32(value % FAT_RANGE);
      for i := 0 to geo.numFats
        invariant SetEntry(geo, old(disk[..]), cluster, value, 0) == SetEntry(geo, disk[..], cluster, value, i)
      {
        var off := EntryOff(geo, i, cluster);
        if off + 4 > disk.Length {
          return Err(OutOfBounds);
        }
        CopyInto(disk, off, bytes);
      }
      return Ok(());
    }

    method FreeChain(start: nat) returns (r: Result<()>)
      modifies disk
      ensures Outcome(r, disk[..]) == Engine.FreeChain(geo, old(disk[..]), start)
    {
      if start < FIRST_CLUSTER {
        return Ok(());
      }
      var chain :- AsRead().FollowChain(start, MAX_CHAIN);
      for k := 0 to |chain|
        invariant ClearEntries(geo, old(disk[..]), chain) == ClearEntries(geo, disk[..], chain[k..])
      {
        var _ :- WriteFatEntryAll(chain[k], 0);
      }
      return Ok(());
    }

    method AllocChain(needed: nat) returns (r: Result<seq<nat>>)
      modifies disk
      ensures Outcome(r, disk[..]) == Engine.AllocChain(geo, old(disk[..]), needed)
    {
      if needed == 0 {
        return Ok([]);
      }
      var maxCl :- MaxCluster(geo, disk.Length);
      var found :- ScanClusters(maxCl, needed);
      if |found| != needed {
        return Err(NoSpaceLeft);
      }
      for i := 0 to |found|
        invariant LinkEntries(geo, old(disk[..]), found) == LinkEntries(geo, disk[..], found[i..])
      {
        var v := if i + 1 < |found| then found[i + 1] else EOC;
        var _ :- WriteFatEntryAll(found[i], v);
      }
      return Ok(found);
    }

    /** The scan loop of `alloc_chain`. */
    method ScanClusters(maxCl: nat, needed: nat) returns (r: Result<seq<nat>>)
      requires needed > 0
      ensures r == ScanFree(geo, disk[..], FIRST_CLUSTER, maxCl, needed)
    {
      var found: seq<nat> := [];
      var cl: nat := FIRST_CLUSTER;
      PrependNothing(ScanFree(geo, disk[..], FIRST_CLUSTER, maxCl, needed));
      while cl <= maxCl
        invariant |found| < needed
        invariant ScanFree(geo, disk[..], FIRST_CLUSTER, maxCl, needed)
                  == Prepend(found, ScanFree(geo, disk[..], cl, maxCl, needed - |found|))
      {
        var v :- ReadFatEntry(geo, disk[..], cl);
        if v == 0 {
          PrependAssoc(found, [cl], ScanFree(geo, disk[..], cl + 1, maxCl, needed - |found| - 1));
          found := found + [cl];
          if |found| == needed {
            PrependEmpty(found);
            return Ok(found);
          }
        }
        cl := cl + 1;
      }
      PrependEmpty(found);
      return Ok(found);
    }

    method WriteChainData(chain: seq<nat>, content: seq<byte>) returns (r: Result<()>)
      modifies disk
      ensures Outcome(r, disk[..]) == FillChain(geo, old(disk[..]), chain, content)
    {
      var cs := geo.clusterSize;
      var pos := 0;
      assert content[0..] == content;
      for k := 0 to |chain|
        invariant 0 <= pos <= |content|
        invariant FillChain(geo, old(disk[..]), chain, content) == FillChain(geo, disk[..], chain[k..], content[pos..])
      {
        FillRound(geo, disk[..], chain, k, content[pos..]);
        var off :- WholeCluster(geo, disk.Length, chain[k]);
        var end := Min(pos + cs, |content|);
        WriteCluster(off, content[pos..end], content[pos..]);
        assert end == pos + cs ==> content[end..] == content[pos..][cs..];
        pos := end;
        if pos >= |content| {
          return Ok(());
        }
      }
      return Ok(());
    }

    /** One cluster of `write_chain_data`: the chunk, then zeros up to the end of the cluster. */
    method WriteCluster(off: nat, chunk: seq<byte>, ghost rest: seq<byte>)
      requires off + geo.clusterSize <= disk.Length
      requires chunk == rest[..Min(|rest|, geo.clusterSize)]
      modifies disk
      ensures disk[..] == Splice(old(disk[..]), off, Padded(rest, geo.clusterSize))
    {
      CopyInto(disk, off, chunk);
      CopyInto(disk, off + |chunk|, Zeros(geo.clusterSize - |chunk|));
      FilledCluster(old(disk[..]), off, rest, geo.clusterSize);
    }

    method WriteDirEntryAtOffset(offset: nat, raw: RawName, first: nat, size: nat) returns (r: Result<()>)
      requires first < U32 && size < U32
      modifies disk
      ensures Outcome(r, disk[..]) == WriteEntry(old(disk[..]), offset, FileSlot(raw, first, size))
    {
      if offset + SLOT_SIZE > disk.Length {
        return Err(OutOfBounds);
      }
      ghost var before := disk[..];
      CopyInto(disk, offset, raw);
      CopyInto(disk, offset + 11, [ARCHIVE]);
      CopyInto(disk, offset + 12, Zeros(8));
      CopyInto(disk, offset + 20, ToLe16(first / U16));
      CopyInto(disk, offset + 22, Zeros(4));
      CopyInto(disk, offset + 26, ToLe16(first % U16));
      CopyInto(disk, offset + 28, ToLe32(size));
      SlotPieces(before, offset, raw, first, size);
      return Ok(());
    }

    method WriteFileByPath(path: string, content: seq<byte>) returns (r: Result<()>)
      requires Valid()
      modifies disk
      ensures Outcome(r, disk[..]) == WriteFile(geo, old(disk[..]), path, content)
    {
      if !Absolute(path) || path == "/" {
        return Err(Other);
      }
      var split :- SplitParent(path);
      var raw :- EncodeShortName83(split.1);
      var parent :- FindParent(split.0);
      r := WriteInParent(parent, raw, content);
    }

    /** The parent lookup of `write_file_by_path`. */
    method FindParent(path: string) returns (r: Result<nat>)
      ensures r == ParentCluster(geo, disk[..], path)
    {
      if path == "/" {
        return Ok(geo.root);
      }
      var found :- AsRead().OpenPath(path);
      match found {
        case None => return Err(PathNotFound);
        case Some(e) =>
          if !e.IsDir() {
            return Err(NotADirectory);
          }
          return Ok(e.firstCluster);
      }
    }

    /** The rest of `write_file_by_path`: release, allocate and fill, update the directory. */
    method WriteInParent(parent: nat, raw: RawName, content: seq<byte>) returns (r: Result<()>)
      requires geo.clusterSize > 0
      modifies disk
      ensures Outcome(r, disk[..]) == WriteInDir(geo, old(disk[..]), parent, raw, content)
    {
      var found :- AsRead().FindDirEntryOffset(parent, raw);
      if found.entry.Some? {
        if found.entry.value.IsDir() {
          return Err(NotAFile);
        }
        if found.entry.value.firstCluster >= FIRST_CLUSTER {
          var _ :- FreeChain(found.entry.value.firstCluster);
        }
      }
      assert Outcome(Ok(()), disk[..]) == Release(geo, old(disk[..]), found.entry);
      var first :- StoreContent(content);
      r := UpdateDirectory(parent, found.offset, raw, first, |content| % U32);
    }

    method StoreContent(content: seq<byte>) returns (r: Result<nat>)
      requires geo.clusterSize > 0
      modifies disk
      ensures Outcome(r, disk[..]) == Store(geo, old(disk[..]), content)
    {
      if content == [] {
        return Ok(0);
      }
      DivCeilSpec(|content|, geo.clusterSize);
      var chain :- AllocChain(DivCeil(|content|, geo.clusterSize));
      var _ :- WriteChainData(chain, content);
      return Ok(chain[0]);
    }

    method UpdateDirectory(parent: nat, offset: Option<nat>, raw: RawName, first: nat,
                           size: nat) returns (r: Result<()>)
      requires first < U32 && size < U32
      modifies disk
      ensures Outcome(r, disk[..]) == EnterSlot(geo, old(disk[..]), parent, offset, FileSlot(raw, first, size))
    {
      match offset {
        case Some(off) =>
          r := WriteDirEntryAtOffset(off, raw, first, size);
        case None =>
          var free :- AsRead().FindFreeDirEntrySlot(parent);
          var _ :- WriteDirEntryAtOffset(free.offset, raw, first, size);
          if free.wasEnd {
            var next := free.offset + SLOT_SIZE;
            if next < free.clusterEnd {
              CopyInto(disk, next, [END_MARK]);
            }
          }
          return Ok(());
      }
    }
  }

  // ---------- pieces ----------

  lemma ClusterSizePositive(a: nat, b: nat)
    requires a > 0 && b > 0
    ensures a * b > 0
  {
  }

  /** Copying a chunk and zeroing the rest of the cluster is laying down the padded chunk. */
  lemma FilledCluster(d: seq<byte>, off: nat, content: seq<byte>, size: nat)
    requires off + size <= |d|
    ensures var n := Min(|content|, size);
            Splice(Splice(d, off, content[..n]), off + n, Zeros(size - n)) == Splice(d, off, Padded(content, size))
  {
  }

  lemma SpliceTwo(d: seq<byte>, off: nat, a: seq<byte>, b: seq<byte>)
    requires off + |a| + |b| <= |d|
    ensures Splice(Splice(d, off, a), off + |a|, b) == Splice(d, off, a + b)
  {
  }

  /** The field-by-field writes of a directory entry lay down the whole slot. */
  lemma SlotPieces(d: seq<byte>, off: nat, raw: RawName, first: nat, size: nat)
    requires off + SLOT_SIZE <= |d| && first < U32 && size < U32
    ensures var d1 := Splice(d, off, raw);
            var d2 := Splice(d1, off + 11, [ARCHIVE]);
            var d3 := Splice(d2, off + 12, Zeros(8));
            var d4 := Splice(d3, off + 20, ToLe16(first / U16));
            var d5 := Splice(d4, off + 22, Zeros(4));
            var d6 := Splice(d5, off + 26, ToLe16(first % U16));
            Splice(d6, off + 28, ToLe32(size)) == Splice(d, off, FileSlot(raw, first, size))
  {
    var a, b, c, e := [ARCHIVE], Zeros(8), ToLe16(first / U16), Zeros(4);
    var f, h := ToLe16(first % U16), ToLe32(size);
    SpliceTwo(d, off, raw, a);
    SpliceTwo(d, off, raw + a, b);
    SpliceTwo(d, off, raw + a + b, c);
    SpliceTwo(d, off, raw + a + b + c, e);
    SpliceTwo(d, off, raw + a + b + c + e, f);
    SpliceTwo(d, off, raw + a + b + c + e + f, h);
  }

  /** The slot loop of `find_dir_entry_offset_by_short_name` over one cluster. */
  method ScanSlots(data: seq<byte>, raw: RawName) returns (r: Scan, e: Option<DirEntry>)
    ensures r == FindRow(Chunks(data), raw, 0)
    ensures r.Hit? ==> e == ParseSlot(Chunks(data)[r.index])
  {
    ghost var row := Chunks(data);
    var i := 0;
    while SLOT_SIZE * i < |data|
      invariant 0 <= i <= |row|
      invariant FindRow(row, raw, 0) == FindRow(row, raw, i)
    {
      var chunk := data[SLOT_SIZE * i..Min(SLOT_SIZE * i + SLOT_SIZE, |data|)];
      if |chunk| < SLOT_SIZE {
        break;
      }
      assert chunk == row[i];
      if chunk[0] == END_MARK {
        return Stopped, None;
      }
      if chunk[0] != DELETED && chunk[..11] == raw {
        e := ParseEntry(chunk);
        return Hit(i), e;
      }
      i := i + 1;
    }
    return Passed, None;
  }

  /** The slot loop of `find_free_dir_entry_slot` over one cluster. */
  method ScanFreeSlots(data: seq<byte>) returns (r: Option<nat>, isEnd: bool)
    ensures r == FreeRow(Chunks(data), 0)
    ensures r.Some? ==> isEnd == (Chunks(data)[r.value][0] == END_MARK)
  {
    ghost var row := Chunks(data);
    var i := 0;
    while SLOT_SIZE * i < |data|
      invariant 0 <= i <= |row|
      invariant FreeRow(row, 0) == FreeRow(row, i)
    {
      var chunk := data[SLOT_SIZE * i..Min(SLOT_SIZE * i + SLOT_SIZE, |data|)];
      if |chunk| < SLOT_SIZE {
        break;
      }
      assert chunk == row[i];
      if chunk[0] == END_MARK || chunk[0] == DELETED {
        return Some(i), chunk[0] == END_MARK;
      }
      i := i + 1;
    }
    return None, false;
  }
}

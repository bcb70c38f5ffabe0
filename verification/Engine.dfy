/** What every FAT32 operation answers, and the buffer it leaves, for any image whatever. */
module Engine {
  import opened Wrappers
  import opened Bytes
  import opened Names
  import opened DirEntries
  import opened Chains
  import opened Geometry
  import opened Tables
  import opened Clusters
  import opened Directories
  import opened Paths

  // ---------- reading ----------

  function Prepend<T>(prefix: seq<T>, r: Result<seq<T>>): Result<seq<T>> {
    match r case Err(e) => Err(e) case Ok(s) => Ok(prefix + s)
  }

  /** The walk of `follow_chain` from `c`, at most `fuel` clusters long; running out of fuel is not an error. */
  function FollowFrom(g: Geo, d: seq<byte>, c: nat, fuel: nat): Result<seq<nat>>
    decreases fuel
  {
    if fuel == 0 then Ok([]) else
      var next :- ReadFatEntry(g, d, c);
      if next >= EOC_MIN then Ok([c])
      else if next < FIRST_CLUSTER then Err(InvalidCluster)
      else Prepend([c], FollowFrom(g, d, next, fuel - 1))
  }

  function FollowChain(g: Geo, d: seq<byte>, start: nat): Result<seq<nat>> {
    if start < FIRST_CLUSTER then Err(InvalidCluster) else FollowFrom(g, d, start, MAX_CHAIN)
  }

  /** The cluster loop of `list_dir_cluster`. */
  function ListChain(g: Geo, d: seq<byte>, ch: seq<nat>): Result<seq<DirEntry>>
    decreases |ch|
  {
    if ch == [] then Ok([]) else
      var data :- ReadCluster(g, d, ch[0]);
      var row := Chunks(data);
      if |LiveRow(row)| < |row| then Ok(Listing(LiveRow(row)))
      else Prepend(Listing(row), ListChain(g, d, ch[1..]))
  }

  function ListDir(g: Geo, d: seq<byte>, start: nat): Result<seq<DirEntry>> {
    var ch :- FollowChain(g, d, start);
    ListChain(g, d, ch)
  }

  /** The component loop of `open_path`. */
  function OpenFrom(g: Geo, d: seq<byte>, cluster: nat, parts: seq<string>,
                    last: Option<DirEntry>): Result<Option<DirEntry>>
    decreases |parts|
  {
    if parts == [] then Ok(last) else
      var entries :- ListDir(g, d, cluster);
      match FindByName(entries, Upper(parts[0]))
      case None => Ok(None)
      case Some(e) => OpenFrom(g, d, e.firstCluster, parts[1..], Some(e))
  }

  predicate Absolute(path: string) {
    path != "" && path[0] == '/'
  }

  function OpenPath(g: Geo, d: seq<byte>, path: string): Result<Option<DirEntry>> {
    if !Absolute(path) then Err(Other)
    else if path == "/" then Ok(None)
    else OpenFrom(g, d, g.root, Components(path), None)
  }

  /** The copy loop of `read_file`, with `n > 0` bytes to go. */
  function ReadChain(g: Geo, d: seq<byte>, ch: seq<nat>, n: nat): Result<seq<byte>>
    decreases |ch|
  {
    if ch == [] then Ok([]) else
      var data :- ReadCluster(g, d, ch[0]);
      var take := Min(n, g.clusterSize);
      if n == take then Ok(data[..take]) else Prepend(data[..take], ReadChain(g, d, ch[1..], n - take))
  }

  function ReadFile(g: Geo, d: seq<byte>, e: DirEntry): Result<seq<byte>> {
    if !e.IsFile() then Err(NotAFile)
    else if e.size == 0 then Ok([])
    else if e.firstCluster < FIRST_CLUSTER then Err(InvalidCluster)
    else
      var ch :- FollowChain(g, d, e.firstCluster);
      ReadChain(g, d, ch, e.size)
  }

  function ReadFileByPath(g: Geo, d: seq<byte>, path: string): Result<Option<seq<byte>>> {
    var found :- OpenPath(g, d, path);
    match found
    case None => Ok(None)
    case Some(e) =>
      var bytes :- ReadFile(g, d, e);
      Ok(Some(bytes))
  }

  function ListDirPath(g: Geo, d: seq<byte>, path: string): Result<seq<DirEntry>> {
    if path == "/" then ListDir(g, d, g.root) else
      var found :- OpenPath(g, d, path);
      match found
      case None => Err(PathNotFound)
      case Some(e) => if !e.IsDir() then Err(NotADirectory) else ListDir(g, d, e.firstCluster)
  }

  // ---------- allocating ----------

  function FreeChain(g: Geo, d: seq<byte>, start: nat): (o: Outcome<()>)
    ensures |o.disk| == |d|
  {
    if start < FIRST_CLUSTER then Outcome(Ok(()), d) else
      match FollowChain(g, d, start)
      case Err(e) => Outcome(Err(e), d)
      case Ok(ch) => ClearEntries(g, d, ch)
  }

  /** The scan of `alloc_chain` from cluster `c` on, for `needed` more clusters. */
  function ScanFree(g: Geo, d: seq<byte>, c: nat, max: nat, needed: nat): (r: Result<seq<nat>>)
    ensures r.Ok? ==> |r.value| <= needed && forall i :: 0 <= i < |r.value| ==> c <= r.value[i] <= max
    decreases max + 1 - c
  {
    if c > max || needed == 0 then Ok([]) else
      var v :- ReadFatEntry(g, d, c);
      if v == 0 then Prepend([c], ScanFree(g, d, c + 1, max, needed - 1))
      else ScanFree(g, d, c + 1, max, needed)
  }

  function AllocChain(g: Geo, d: seq<byte>, needed: nat): (o: Outcome<seq<nat>>)
    ensures |o.disk| == |d|
    ensures o.result.Ok? ==> |o.result.value| == needed && forall i :: 0 <= i < needed ==> o.result.value[i] < U32
  {
    if needed == 0 then Outcome(Ok([]), d) else
      match MaxCluster(g, |d|)
      case Err(e) => Outcome(Err(e), d)
      case Ok(max) =>
        match ScanFree(g, d, FIRST_CLUSTER, max, needed)
        case Err(e) => Outcome(Err(e), d)
        case Ok(found) =>
          if |found| != needed then Outcome(Err(NoSpaceLeft), d) else
            var linked := LinkEntries(g, d, found);
            match linked.result
            case Err(e) => Outcome(Err(e), linked.disk)
            case Ok(_) => Outcome(Ok(found), linked.disk)
  }

  function DivCeil(a: nat, b: nat): nat {
    if b == 0 then 0 else (a + b - 1) / b
  }

  /** `div_ceil` is the least number of clusters that hold `a` bytes. */
  lemma DivCeilSpec(a: nat, b: nat)
    requires b > 0
    ensures a <= DivCeil(a, b) * b < a + b
    ensures a > 0 ==> DivCeil(a, b) > 0
  {
    var q := (a + b - 1) / b;
    assert a + b - 1 == q * b + (a + b - 1) % b;
    if q == 0 { assert q * b == 0; }
  }

  /** Allocation and data of a file's content; the answer is the first cluster, 0 for an empty file. */
  function Store(g: Geo, d: seq<byte>, content: seq<byte>): (o: Outcome<nat>)
    requires g.clusterSize > 0
    ensures |o.disk| == |d|
    ensures o.result.Ok? ==> o.result.value < U32
  {
    if content == [] then Outcome(Ok(0), d) else
      var chain := AllocChain(g, d, DivCeil(|content|, g.clusterSize));
      match chain.result
      case Err(e) => Outcome(Err(e), chain.disk)
      case Ok(ch) =>
        DivCeilSpec(|content|, g.clusterSize);
        var filled := FillChain(g, chain.disk, ch, content);
        match filled.result
        case Err(e) => Outcome(Err(e), filled.disk)
        case Ok(_) => Outcome(Ok(ch[0]), filled.disk)
  }

  // ---------- directory slots ----------

  /** Where a raw name was found, and the entry parsed there (a volume label parses to none). */
  datatype Found = Found(offset: Option<nat>, entry: Option<DirEntry>)

  /** The raw search in one cluster; no answer means that the search goes on. */
  function FindHere(g: Geo, d: seq<byte>, c: nat, raw: RawName): Result<Option<Found>> {
    var off :- WholeCluster(g, |d|, c);
    var row := Chunks(d[off..off + g.clusterSize]);
    match FindRow(row, raw, 0)
    case Hit(a) => Ok(Some(Found(Some(off + SLOT_SIZE * a), ParseSlot(row[a]))))
    case Stopped => Ok(Some(Found(None, None)))
    case Passed => Ok(None)
  }

  /** The cluster loop of `find_dir_entry_offset_by_short_name`. */
  function FindInChain(g: Geo, d: seq<byte>, ch: seq<nat>, raw: RawName): Result<Found>
    decreases |ch|
  {
    if ch == [] then Ok(Found(None, None)) else
      var here :- FindHere(g, d, ch[0], raw);
      if here.Some? then Ok(here.value) else FindInChain(g, d, ch[1..], raw)
  }

  function FindEntry(g: Geo, d: seq<byte>, start: nat, raw: RawName): Result<Found> {
    var ch :- FollowChain(g, d, start);
    FindInChain(g, d, ch, raw)
  }

  /** A free slot: its offset, whether it held the end mark, and where its cluster ends. */
  datatype FreeSlot = FreeSlot(offset: nat, wasEnd: bool, clusterEnd: nat)

  /** The free-slot scan of one cluster. */
  function FreeHere(g: Geo, d: seq<byte>, c: nat): (r: Result<Option<FreeSlot>>)
    ensures r.Ok? && r.value.Some? ==> r.value.value.clusterEnd <= |d|
  {
    var off :- WholeCluster(g, |d|, c);
    var row := Chunks(d[off..off + g.clusterSize]);
    match FreeRow(row, 0)
    case Some(a) => Ok(Some(FreeSlot(off + SLOT_SIZE * a, row[a][0] == END_MARK, off + g.clusterSize)))
    case None => Ok(None)
  }

  /** The cluster loop of `find_free_dir_entry_slot`. */
  function FreeInChain(g: Geo, d: seq<byte>, ch: seq<nat>): (r: Result<FreeSlot>)
    ensures r.Ok? ==> r.value.clusterEnd <= |d|
    decreases |ch|
  {
    if ch == [] then Err(NoSpaceLeft) else
      var here :- FreeHere(g, d, ch[0]);
      if here.Some? then Ok(here.value) else FreeInChain(g, d, ch[1..])
  }

  function FindFree(g: Geo, d: seq<byte>, start: nat): (r: Result<FreeSlot>)
    ensures r.Ok? ==> r.value.clusterEnd <= |d|
  {
    var ch :- FollowChain(g, d, start);
    FreeInChain(g, d, ch)
  }

  /** `write_dir_entry_at_offset`. */
  function WriteEntry(d: seq<byte>, off: nat, s: Slot): (o: Outcome<()>)
    ensures |o.disk| == |d|
  {
    if off + SLOT_SIZE > |d| then Outcome(Err(OutOfBounds), d) else Outcome(Ok(()), Splice(d, off, s))
  }

  /** Writing a new entry into the first free slot, and restoring the end mark after it. */
  function EnterNew(g: Geo, d: seq<byte>, parent: nat, s: Slot): (o: Outcome<()>)
    ensures |o.disk| == |d|
  {
    match FindFree(g, d, parent)
    case Err(e) => Outcome(Err(e), d)
    case Ok(free) => EnterFree(d, free, s)
  }

  function EnterFree(d: seq<byte>, free: FreeSlot, s: Slot): (o: Outcome<()>)
    requires free.clusterEnd <= |d|
    ensures |o.disk| == |d|
  {
    var written := WriteEntry(d, free.offset, s);
    if written.result.Ok? && free.wasEnd && free.offset + SLOT_SIZE < free.clusterEnd
    then Outcome(Ok(()), Splice(written.disk, free.offset + SLOT_SIZE, [END_MARK]))
    else written
  }

  /** Updating the slot that was found, or entering a new one. */
  function EnterSlot(g: Geo, d: seq<byte>, parent: nat, offset: Option<nat>, s: Slot): (o: Outcome<()>)
    ensures |o.disk| == |d|
  {
    match offset
    case Some(off) => WriteEntry(d, off, s)
    case None => EnterNew(g, d, parent, s)
  }

  // ---------- write_file_by_path ----------

  function ParentCluster(g: Geo, d: seq<byte>, parent: string): Result<nat> {
    if parent == "/" then Ok(g.root) else
      var found :- OpenPath(g, d, parent);
      match found
      case None => Err(PathNotFound)
      case Some(e) => if !e.IsDir() then Err(NotADirectory) else Ok(e.firstCluster)
  }

  /** Freeing the chain of the file that is about to be overwritten. */
  function Release(g: Geo, d: seq<byte>, entry: Option<DirEntry>): (o: Outcome<()>)
    ensures |o.disk| == |d|
  {
    match entry
    case None => Outcome(Ok(()), d)
    case Some(e) => FreeChain(g, d, e.firstCluster)
  }

  /** The write once the parent directory and the raw name are known. */
  function WriteInDir(g: Geo, d: seq<byte>, parent: nat, raw: RawName, content: seq<byte>): (o: Outcome<()>)
    requires g.clusterSize > 0
    ensures |o.disk| == |d|
  {
    match FindEntry(g, d, parent, raw)
    case Err(e) => Outcome(Err(e), d)
    case Ok(found) =>
      if found.entry.Some? && found.entry.value.IsDir() then Outcome(Err(NotAFile), d) else
        var released := Release(g, d, found.entry);
        if released.result.Err? then released else
          var stored := Store(g, released.disk, content);
          match stored.result
          case Err(e) => Outcome(Err(e), stored.disk)
          case Ok(first) =>
            var s := FileSlot(raw, first, |content| % U32);
            EnterSlot(g, stored.disk, parent, found.offset, s)
  }

  function WriteFile(g: Geo, d: seq<byte>, path: string, content: seq<byte>): (o: Outcome<()>)
    requires g.clusterSize > 0
    ensures |o.disk| == |d|
  {
    if !Absolute(path) || path == "/" then Outcome(Err(Other), d) else
      match SplitParent(path)
      case Err(e) => Outcome(Err(e), d)
      case Ok((parent, name)) =>
        match Encode(name)
        case Err(e) => Outcome(Err(e), d)
        case Ok(raw) =>
          match ParentCluster(g, d, parent)
          case Err(e) => Outcome(Err(e), d)
          case Ok(cluster) => WriteInDir(g, d, cluster, raw, content)
  }
}

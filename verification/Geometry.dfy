/** Where things lie in a FAT32 image: the parsed header, the mirrored tables and the data clusters. */
module Geometry {
  import opened Wrappers
  import opened Bytes
  import opened Chains

  /** A FAT entry carries 28 significant bits. */
  const FAT_RANGE: nat := 0x1000_0000
  /** The parsed header bytes end before this offset. */
  const HEADER_END: nat := 48

  // ---------- header ----------

  datatype BpbParams = BpbParams(
    bytesPerSector: nat, sectorsPerCluster: nat, reservedSectors: nat,
    numFats: nat, sectorsPerFat: nat, rootCluster: nat)

  /** `parse_bpb`. */
  function ParseBpb(disk: seq<byte>): Result<BpbParams> {
    if |disk| < 512 then Err(BufferTooSmall) else
      var p := BpbParams(Le16(disk, 11), disk[13], Le16(disk, 14), disk[16], Le32(disk, 36), Le32(disk, 44));
      if p.bytesPerSector == 0 || p.sectorsPerCluster == 0 || p.numFats == 0 then Err(NotFat32)
      else if p.sectorsPerFat == 0 then Err(NotFat32)
      else Ok(p)
  }

  /** Only the bytes before `HEADER_END` matter to the header. */
  lemma ParseBpbFrame(d: seq<byte>, d': seq<byte>)
    requires |d'| == |d|
    requires forall k :: 0 <= k < |d| && k < HEADER_END ==> d'[k] == d[k]
    ensures ParseBpb(d') == ParseBpb(d)
  {
  }

  /** Byte offsets and lengths derived from the header. */
  datatype Geo = Geo(fatStart: nat, fatLen: nat, numFats: nat, dataStart: nat, clusterSize: nat, root: nat)

  function GeoOf(p: BpbParams): Geo {
    Geo(p.reservedSectors * p.bytesPerSector,
        p.sectorsPerFat * p.bytesPerSector,
        p.numFats,
        p.reservedSectors * p.bytesPerSector + p.numFats * p.sectorsPerFat * p.bytesPerSector,
        p.bytesPerSector * p.sectorsPerCluster,
        p.rootCluster)
  }

  /** The tables are back to back between the reserved area and the data area. */
  lemma GeoOfTables(p: BpbParams)
    ensures GeoOf(p).dataStart == GeoOf(p).fatStart + GeoOf(p).numFats * GeoOf(p).fatLen
  {
    assert p.numFats * p.sectorsPerFat * p.bytesPerSector == p.numFats * (p.sectorsPerFat * p.bytesPerSector);
  }

  /** `max_cluster_number`, with its truncating casts to 32 bits. */
  function MaxCluster(g: Geo, len: nat): Result<nat> {
    if g.dataStart >= len then Err(OutOfBounds)
    else if g.clusterSize == 0 then Err(NotFat32)
    else
      var dataClusters := (len - g.dataStart) / g.clusterSize % U32;
      if dataClusters == 0 then Err(NotFat32) else
        var lastByData := (dataClusters + 1) % U32;
        var fatEntries := g.fatLen / 4 % U32;
        if fatEntries < 3 then Err(NotFat32)
        else Ok(if lastByData < fatEntries - 1 then lastByData else fatEntries - 1)
  }

  // ---------- layout of a usable image ----------

  /** The image has room for its tables and at least one cluster, and its counts fit their fields. */
  predicate Layout(g: Geo, len: nat) {
    && HEADER_END <= g.fatStart && 1 <= g.numFats && 1 <= g.clusterSize
    && g.dataStart == g.fatStart + g.numFats * g.fatLen
    && g.dataStart < len
    && 1 <= (len - g.dataStart) / g.clusterSize < 0x0FFF_FFF6
    && 3 <= g.fatLen / 4 < U32
  }

  /** The highest usable cluster. */
  function Top(g: Geo, len: nat): (t: nat)
    requires Layout(g, len)
    ensures FIRST_CLUSTER <= t < EOC_MIN
  {
    var byData, byFat := 1 + (len - g.dataStart) / g.clusterSize, g.fatLen / 4 - 1;
    if byData < byFat then byData else byFat
  }

  /** On a usable image the casts of `max_cluster_number` lose nothing. */
  lemma MaxClusterIsTop(g: Geo, len: nat)
    requires Layout(g, len)
    ensures MaxCluster(g, len) == Ok(Top(g, len))
  {
    var clusters, entries := (len - g.dataStart) / g.clusterSize, g.fatLen / 4;
    NoWrap(clusters);
    NoWrap(clusters + 1);
    NoWrap(entries);
  }

  lemma NoWrap(n: nat)
    requires n < U32
    ensures n % U32 == n
  {
  }

  function CopyBase(g: Geo, i: nat): nat { g.fatStart + i * g.fatLen }

  function EntryOff(g: Geo, i: nat, c: nat): nat { CopyBase(g, i) + 4 * c }

  function ClusterOff(g: Geo, c: nat): nat
    requires FIRST_CLUSTER <= c
  {
    g.dataStart + (c - FIRST_CLUSTER) * g.clusterSize
  }

  lemma MulMono(a: nat, b: nat, k: nat)
    requires a <= b
    ensures a * k <= b * k
  {
  }

  lemma NextMultiple(a: nat, k: nat)
    ensures (a + 1) * k == a * k + k
  {
  }

  lemma Quotient(room: nat, k: nat, n: nat)
    requires 1 <= k && n <= room / k
    ensures n * k <= room
  {
    MulMono(n, room / k, k);
    assert room == room / k * k + room % k;
  }

  /** Steps of `k` from `s` on come in order, and end at `e`. */
  lemma StepsInOrder(s: nat, k: nat, i: nat, j: nat, n: nat, e: nat)
    requires i < j <= n && e == s + n * k
    ensures s <= s + i * k && s + i * k + k <= s + j * k <= e
  {
    MulMono(i + 1, j, k);
    MulMono(j, n, k);
    NextMultiple(i, k);
  }

  lemma DataAfterTables(g: Geo, len: nat)
    requires Layout(g, len)
    ensures g.dataStart == g.fatStart + g.numFats * g.fatLen
  {
  }

  /** The `i`-th table copy ends before the next one starts, and before the data. */
  lemma CopyBounds(g: Geo, len: nat, i: nat, j: nat)
    requires Layout(g, len) && i < j <= g.numFats
    ensures g.fatStart <= CopyBase(g, i) && CopyBase(g, i) + g.fatLen <= CopyBase(g, j) <= g.dataStart
  {
    hide Layout;
    DataAfterTables(g, len);
    StepsInOrder(g.fatStart, g.fatLen, i, j, g.numFats, g.dataStart);
  }

  lemma EntryBounds(g: Geo, len: nat, i: nat, c: nat)
    requires Layout(g, len) && i < g.numFats && c <= Top(g, len)
    ensures 4 * c + 4 <= g.fatLen
    ensures g.fatStart <= EntryOff(g, i, c) && EntryOff(g, i, c) + 4 <= CopyBase(g, i) + g.fatLen <= g.dataStart < len
    ensures EntryOff(g, 0, c) == g.fatStart + 4 * c
  {
    CopyBounds(g, len, i, g.numFats);
  }

  lemma ClusterBounds(g: Geo, len: nat, c: nat)
    requires Layout(g, len) && FIRST_CLUSTER <= c <= Top(g, len)
    ensures g.dataStart <= ClusterOff(g, c) && ClusterOff(g, c) + g.clusterSize <= len
  {
    Quotient(len - g.dataStart, g.clusterSize, c - 1);
    NextMultiple(c - 2, g.clusterSize);
  }

  /** Distinct clusters occupy disjoint bytes. */
  lemma ClustersApart(g: Geo, a: nat, b: nat)
    requires FIRST_CLUSTER <= a < b
    ensures ClusterOff(g, a) + g.clusterSize <= ClusterOff(g, b)
  {
    MulMono(a - 1, b - 2, g.clusterSize);
    NextMultiple(a - 2, g.clusterSize);
    assert (a - 1) * g.clusterSize == (a - 2) * g.clusterSize + g.clusterSize;
  }

  // ---------- single accesses ----------

  /** `read_fat_entry`: the first table, masked to 28 bits. */
  function ReadFatEntry(g: Geo, d: seq<byte>, c: nat): Result<nat> {
    var off := g.fatStart + 4 * c;
    if off + 4 > |d| then Err(OutOfBounds) else Ok(Le32(d, off) % FAT_RANGE)
  }

  /** `cluster_to_offset`. */
  function ClusterToOffset(g: Geo, len: nat, c: nat): Result<nat> {
    if c < FIRST_CLUSTER then Err(InvalidCluster)
    else if ClusterOff(g, c) >= len then Err(OutOfBounds)
    else Ok(ClusterOff(g, c))
  }

  /** The offset of a cluster that lies entirely inside the buffer. */
  function WholeCluster(g: Geo, len: nat, c: nat): Result<nat> {
    var off :- ClusterToOffset(g, len, c);
    if off + g.clusterSize > len then Err(OutOfBounds) else Ok(off)
  }

  /** `read_cluster`. */
  function ReadCluster(g: Geo, d: seq<byte>, c: nat): Result<seq<byte>> {
    var off :- WholeCluster(g, |d|, c);
    Ok(d[off..off + g.clusterSize])
  }

  // ---------- the volume behind the bytes ----------

  /** The table and the data clusters; `data[0]` and `data[1]` name no cluster. */
  datatype Vol = Vol(fat: Fat, data: seq<seq<byte>>)

  function FatValue(g: Geo, d: seq<byte>, c: nat): (v: nat)
    requires Layout(g, |d|) && c <= Top(g, |d|)
  {
    EntryBounds(g, |d|, 0, c);
    Le32(d, g.fatStart + 4 * c) % FAT_RANGE
  }

  function ClusterBytes(g: Geo, d: seq<byte>, c: nat): (s: seq<byte>)
    requires Layout(g, |d|) && c <= Top(g, |d|)
    ensures FIRST_CLUSTER <= c ==> |s| == g.clusterSize
  {
    if c < FIRST_CLUSTER then []
    else
      ClusterBounds(g, |d|, c);
      d[ClusterOff(g, c)..ClusterOff(g, c) + g.clusterSize]
  }

  function View(g: Geo, d: seq<byte>): (v: Vol)
    requires Layout(g, |d|)
    ensures |v.fat| == |v.data| == Top(g, |d|) + 1
  {
    var n := Top(g, |d|) + 1;
    Vol(seq(n, c requires 0 <= c < n => FatValue(g, d, c)),
        seq(n, c requires 0 <= c < n => ClusterBytes(g, d, c)))
  }

  lemma ReadFatEntryView(g: Geo, d: seq<byte>, c: nat)
    requires Layout(g, |d|) && c <= Top(g, |d|)
    ensures ReadFatEntry(g, d, c) == Ok(View(g, d).fat[c])
  {
    EntryBounds(g, |d|, 0, c);
  }

  lemma ReadClusterView(g: Geo, d: seq<byte>, c: nat)
    requires Layout(g, |d|) && FIRST_CLUSTER <= c <= Top(g, |d|)
    ensures WholeCluster(g, |d|, c) == Ok(ClusterOff(g, c))
    ensures ReadCluster(g, d, c) == Ok(View(g, d).data[c])
  {
    ClusterBounds(g, |d|, c);
  }

  /** Table copies agree byte for byte with the first one. */
  ghost predicate Mirrored(g: Geo, d: seq<byte>)
    requires Layout(g, |d|)
  {
    forall j, k :: 0 <= j < g.numFats && 0 <= k < g.fatLen ==> FatByte(g, d, j, k) == FatByte(g, d, 0, k)
  }

  function FatByte(g: Geo, d: seq<byte>, j: nat, k: nat): byte
    requires Layout(g, |d|) && j < g.numFats && k < g.fatLen
  {
    CopyBounds(g, |d|, j, g.numFats);
    d[CopyBase(g, j) + k]
  }
}

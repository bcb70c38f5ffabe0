/** The on-disk format by its numbers: what every header field, table entry and slot byte means, on any image. */
module Formats {
  import opened Wrappers
  import opened Bytes
  import opened Names
  import opened DirEntries
  import opened Chains
  import opened Geometry
  import opened Directories
  import opened Engine
  import opened Refinement

  // ---------- the header ----------

  /** The six fields of the header are read from bytes 11-12, 13, 14-15, 16, 36-39 and 44-47, least significant byte
      first; a zero in one of the four that are checked is NotFat32. */
  lemma HeaderFields(disk: seq<byte>, bytesPerSector: nat, sectorsPerCluster: nat, reserved: nat, tables: nat,
                     sectorsPerTable: nat, root: nat)
    requires |disk| >= 512
    requires disk[11] as int + 0x100 * disk[12] as int == bytesPerSector
    requires disk[13] as int == sectorsPerCluster
    requires disk[14] as int + 0x100 * disk[15] as int == reserved
    requires disk[16] as int == tables
    requires disk[36] as int + 0x100 * disk[37] as int + 0x1_0000 * disk[38] as int + 0x100_0000 * disk[39] as int
             == sectorsPerTable
    requires disk[44] as int + 0x100 * disk[45] as int + 0x1_0000 * disk[46] as int + 0x100_0000 * disk[47] as int
             == root
    ensures if bytesPerSector == 0 || sectorsPerCluster == 0 || tables == 0 || sectorsPerTable == 0
            then ParseBpb(disk) == Err(NotFat32)
            else
              && ParseBpb(disk).Ok?
              && var p := ParseBpb(disk).value;
              && p.bytesPerSector == bytesPerSector && p.sectorsPerCluster == sectorsPerCluster
              && p.reservedSectors == reserved && p.numFats == tables
              && p.sectorsPerFat == sectorsPerTable && p.rootCluster == root
  {
  }

  /** A buffer is too small exactly when it does not hold a whole sector of 512 bytes. */
  lemma HeaderTooSmall(disk: seq<byte>)
    ensures |disk| < 512 <==> ParseBpb(disk) == Err(BufferTooSmall)
  {
  }

  /** Where things lie, in sectors: the `i`-th table after the reserved sectors and the tables before it, four bytes to
      an entry; cluster `c` after all tables and the clusters from 2 on before it. */
  lemma SectorsAre(p: BpbParams, i: nat, c: nat)
    ensures EntryOff(GeoOf(p), i, c) == (p.reservedSectors + i * p.sectorsPerFat) * p.bytesPerSector + 4 * c
    ensures c >= 2 ==>
              ClusterOff(GeoOf(p), c)
              == (p.reservedSectors + p.numFats * p.sectorsPerFat + (c - 2) * p.sectorsPerCluster) * p.bytesPerSector
    ensures GeoOf(p).clusterSize == p.sectorsPerCluster * p.bytesPerSector
    ensures GeoOf(p).numFats == p.numFats && GeoOf(p).root == p.rootCluster
  {
    SumTimes(p.reservedSectors, i, p.sectorsPerFat, p.bytesPerSector);
    if c >= 2 {
      SumTimes(p.reservedSectors, p.numFats, p.sectorsPerFat, p.bytesPerSector);
      SumTimes(p.reservedSectors + p.numFats * p.sectorsPerFat, c - 2, p.sectorsPerCluster, p.bytesPerSector);
      Regrouped(p.numFats, p.sectorsPerFat, p.bytesPerSector);
    }
  }

  lemma SumTimes(a: nat, n: nat, k: nat, b: nat)
    ensures (a + n * k) * b == a * b + n * (k * b)
    ensures k * b == b * k
  {
    Regrouped(n, k, b);
    assert (a + n * k) * b == a * b + (n * k) * b;
  }

  lemma Regrouped(n: nat, k: nat, b: nat)
    ensures n * k * b == n * (k * b)
  {
  }

  /** A header whose six fields are six different numbers: 512-byte sectors, 8 to a cluster, 32 reserved, 2 tables of 1
      sector, root in cluster 3. */
  function HeaderByte(i: nat): byte {
    if i == 12 then 2
    else if i == 13 then 8
    else if i == 14 then 32
    else if i == 16 then 2
    else if i == 36 then 1
    else if i == 44 then 3
    else 0
  }

  function UsualSector(): (disk: seq<byte>)
    ensures |disk| == 512
  {
    seq(512, i requires 0 <= i < 512 => HeaderByte(i))
  }

  lemma UsualHeader()
    ensures ParseBpb(UsualSector()) == Ok(BpbParams(512, 8, 32, 2, 1, 3))
    ensures GeoOf(ParseBpb(UsualSector()).value) == Geo(16384, 512, 2, 17408, 4096, 3)
  {
    HeaderFields(UsualSector(), 512, 8, 32, 2, 1, 3);
  }

  // ---------- table entries ----------

  /** The four bytes of the entry of cluster `c` in the first table. */
  predicate HasEntryBytes(g: Geo, d: seq<byte>, c: nat) {
    g.fatStart + 4 * c + 4 <= |d|
  }

  /** Their value, least significant byte first, without the top four bits. */
  function EntryAt(g: Geo, d: seq<byte>, c: nat): (v: nat)
    requires HasEntryBytes(g, d, c)
    ensures v < 0x1000_0000
  {
    var at := g.fatStart + 4 * c;
    d[at] as int + 0x100 * d[at + 1] as int + 0x1_0000 * d[at + 2] as int + 0x100_0000 * (d[at + 3] as int % 16)
  }

  lemma EntryRead(g: Geo, d: seq<byte>, c: nat)
    ensures ReadFatEntry(g, d, c) == if HasEntryBytes(g, d, c) then Ok(EntryAt(g, d, c)) else Err(OutOfBounds)
  {
    if HasEntryBytes(g, d, c) {
      var at := g.fatStart + 4 * c;
      TopBits(d[at] as int + 0x100 * d[at + 1] as int + 0x1_0000 * d[at + 2] as int, d[at + 3]);
    }
  }

  lemma TopBits(low: nat, b: byte)
    requires low < 0x100_0000
    ensures (low + 0x100_0000 * b as int) % 0x1000_0000 == low + 0x100_0000 * (b as int % 16)
  {
  }

  /** One entry decides what a walk does at its cluster: 0x0FFFFFF8 to 0x0FFFFFFF end the chain, 0 and 1 are no cluster,
      and every other value is where it goes on. */
  lemma WalkStep(g: Geo, d: seq<byte>, c: nat, fuel: nat)
    requires fuel > 0
    ensures !HasEntryBytes(g, d, c) ==> FollowFrom(g, d, c, fuel) == Err(OutOfBounds)
    ensures HasEntryBytes(g, d, c) ==>
              && (0x0FFF_FFF8 <= EntryAt(g, d, c) <= 0x0FFF_FFFF ==> FollowFrom(g, d, c, fuel) == Ok([c]))
              && (EntryAt(g, d, c) <= 1 ==> FollowFrom(g, d, c, fuel) == Err(InvalidCluster))
              && (2 <= EntryAt(g, d, c) <= 0x0FFF_FFF7 ==>
                    FollowFrom(g, d, c, fuel) == Prepend([c], FollowFrom(g, d, EntryAt(g, d, c), fuel - 1)))
  {
    EntryRead(g, d, c);
  }

  /** The entry of `a` names `b`, which is neither an end mark nor 0 nor 1. */
  predicate LeadsTo(g: Geo, d: seq<byte>, a: nat, b: nat) {
    HasEntryBytes(g, d, a) && EntryAt(g, d, a) == b && 2 <= b <= 0x0FFF_FFF7
  }

  /** Every cluster of `ch` but the last one names the next one. */
  ghost predicate Linked(g: Geo, d: seq<byte>, ch: seq<nat>) {
    forall i, j :: 0 <= i < j < |ch| && j == i + 1 ==> LeadsTo(g, d, ch[i], ch[j])
  }

  /** A walk along linked clusters, by what its last cluster's entry says. */
  ghost function WalkEnd(g: Geo, d: seq<byte>, ch: seq<nat>): Result<seq<nat>>
    requires ch != []
  {
    var last := ch[|ch| - 1];
    if !HasEntryBytes(g, d, last) then Err(OutOfBounds)
    else if EntryAt(g, d, last) <= 1 then Err(InvalidCluster)
    else Ok(ch)
  }

  lemma {:induction false} WalkFrom(g: Geo, d: seq<byte>, ch: seq<nat>, fuel: nat)
    requires ch != [] && Linked(g, d, ch) && |ch| <= fuel
    requires HasEntryBytes(g, d, ch[|ch| - 1]) && 2 <= EntryAt(g, d, ch[|ch| - 1]) <= 0x0FFF_FFF7 ==> |ch| == fuel
    ensures FollowFrom(g, d, ch[0], fuel) == WalkEnd(g, d, ch)
    decreases |ch|
  {
    WalkStep(g, d, ch[0], fuel);
    if |ch| == 1 {
      assert ch == [ch[0]];
      assert forall v :: FollowFrom(g, d, v, 0) == Ok([]);
      assert [ch[0]] + [] == ch;
    } else {
      var rest := ch[1..];
      assert Linked(g, d, rest) by {
        forall i, j | 0 <= i < j < |rest| && j == i + 1 ensures LeadsTo(g, d, rest[i], rest[j]) {
          assert LeadsTo(g, d, ch[i + 1], ch[j + 1]);
        }
      }
      assert LeadsTo(g, d, ch[0], ch[1]);
      WalkFrom(g, d, rest, fuel - 1);
      assert ch == [ch[0]] + rest;
    }
  }

  /** `follow_chain` on any image: it collects the clusters that the entries link, up to 4096 of them; the last entry
      ends the chain, or is no cluster, or lies outside the buffer. */
  lemma WalkIs(g: Geo, d: seq<byte>, ch: seq<nat>)
    requires ch != [] && Linked(g, d, ch) && |ch| <= 4096
    requires HasEntryBytes(g, d, ch[|ch| - 1]) && 2 <= EntryAt(g, d, ch[|ch| - 1]) <= 0x0FFF_FFF7 ==> |ch| == 4096
    ensures FollowChain(g, d, ch[0]) == if ch[0] < 2 then Err(InvalidCluster) else WalkEnd(g, d, ch)
  {
    if ch[0] >= 2 { WalkFrom(g, d, ch, 4096); }
  }

  // ---------- the entries that allocation writes ----------

  lemma {:induction false} LinkValue(fat: Fat, ch: seq<nat>, i: nat)
    requires Distinct(ch) && AllInRange(fat, ch) && i < |ch|
    ensures ch[i] < |fat| && Link(fat, ch)[ch[i]] == if i + 1 < |ch| then ch[i + 1] else 0x0FFF_FFFF
    decreases |ch|
  {
    var next := fat[ch[0] := if |ch| > 1 then ch[1] else EOC];
    var rest := ch[1..];
    assert InRange(fat, ch[i]) && ch[0] !in rest;
    if i == 0 {
      assert Link(fat, ch)[ch[0]] == next[ch[0]];
    } else {
      LinkValue(next, rest, i - 1);
    }
  }

  lemma EntryInView(g: Geo, d: seq<byte>, c: nat)
    requires Layout(g, |d|) && c <= Top(g, |d|)
    ensures HasEntryBytes(g, d, c) && EntryAt(g, d, c) == View(g, d).fat[c]
  {
    ReadFatEntryView(g, d, c);
    EntryRead(g, d, c);
  }

  /** After an allocation each entry names the next cluster, and the last one is 0x0FFFFFFF. */
  lemma AllocEntries(g: Geo, d: seq<byte>, needed: nat, i: nat)
    requires Layout(g, |d|) && 0 < needed <= FreeCount(View(g, d).fat) && i < needed
    ensures var o := AllocChain(g, d, needed);
            && o.result.Ok? && |o.result.value| == needed
            && var found := o.result.value;
            && HasEntryBytes(g, o.disk, found[i])
            && EntryAt(g, o.disk, found[i]) == if i + 1 < needed then found[i + 1] else 0x0FFF_FFFF
  {
    var fat := View(g, d).fat;
    AllocChainView(g, d, needed);
    FirstFitIsLowest(fat, needed);
    LinkedEntry(g, AllocChain(g, d, needed).disk, fat, FreeClusters(fat)[..needed], i);
    hide View, FreeClusters, AllocChain, Link, Layout, EntryAt, HasEntryBytes;
  }

  lemma LinkedEntry(g: Geo, d: seq<byte>, fat: Fat, ch: seq<nat>, i: nat)
    requires Layout(g, |d|) && Distinct(ch) && AllInRange(fat, ch) && i < |ch| && View(g, d).fat == Link(fat, ch)
    ensures HasEntryBytes(g, d, ch[i])
    ensures EntryAt(g, d, ch[i]) == if i + 1 < |ch| then ch[i + 1] else 0x0FFF_FFFF
  {
    LinkValue(fat, ch, i);
    EntryInView(g, d, ch[i]);
  }

  // ---------- clusters ----------

  /** `Top` is the highest cluster that has both a whole entry in the table and all its bytes in the buffer. */
  lemma TopIsHighest(g: Geo, len: nat, c: nat)
    requires Layout(g, len) && c >= 2
    ensures c <= Top(g, len) <==> 4 * c + 4 <= g.fatLen && g.dataStart + (c - 1) * g.clusterSize <= len
  {
    Within(len - g.dataStart, g.clusterSize, c - 1);
  }

  lemma Within(room: nat, k: nat, n: nat)
    requires k >= 1
    ensures n <= room / k <==> n * k <= room
  {
    if n <= room / k {
      Quotient(room, k, n);
    } else {
      MulMono(room / k + 1, n, k);
      NextMultiple(room / k, k);
      assert room == room / k * k + room % k;
    }
  }

  /** Reading a cluster gives all its bytes; 0 and 1 are no clusters, and one that is cut off by the end of the buffer
      is out of bounds. */
  lemma ClusterRead(g: Geo, d: seq<byte>, c: nat)
    requires g.clusterSize > 0
    ensures c < 2 ==> ReadCluster(g, d, c) == Err(InvalidCluster)
    ensures c >= 2 ==>
              var off := g.dataStart + (c - 2) * g.clusterSize;
              ReadCluster(g, d, c) == if off + g.clusterSize <= |d| then Ok(d[off..off + g.clusterSize])
                                      else Err(OutOfBounds)
  {
    if c >= 2 { assert ClusterOff(g, c) == g.dataStart + (c - 2) * g.clusterSize; }
  }

  /** An image that cannot be allocated from: no data area, or no table, or clusters of no size. */
  lemma MaxClusterRefuses(g: Geo, len: nat)
    ensures g.dataStart >= len ==> MaxCluster(g, len) == Err(OutOfBounds)
    ensures g.dataStart < len && (g.clusterSize == 0 || len - g.dataStart < g.clusterSize || g.fatLen < 12) ==>
              MaxCluster(g, len) == Err(NotFat32)
  {
    if g.dataStart < len && g.clusterSize > 0 && len - g.dataStart < g.clusterSize {
      NoneFit(len - g.dataStart, g.clusterSize);
    }
  }

  lemma NoneFit(room: nat, k: nat)
    requires room < k
    ensures room / k == 0
  {
  }

  // ---------- slots ----------

  function Weight(bit: bool, weight: nat): nat {
    if bit then weight else 0
  }

  lemma BitOf(b: byte, low: nat, bit: nat, high: nat, weight: nat)
    requires low < weight && bit <= 1 && b as int == (bit + 2 * high) * weight + low
    ensures HasBit(b, weight) <==> bit == 1
  {
    DivideBack(bit + 2 * high, low, weight);
  }

  lemma DivideBack(q: nat, low: nat, weight: nat)
    requires low < weight
    ensures (q * weight + low) / weight == q
  {
    var r := (q * weight + low) / weight;
    assert q * weight + low == r * weight + (q * weight + low) % weight;
    if r < q { MulMono(r + 1, q, weight); NextMultiple(r, weight); }
    if q < r { MulMono(q + 1, r, weight); NextMultiple(q, weight); }
  }

  lemma SixBits(b: byte, b0: nat, b1: nat, b2: nat, b3: nat, b4: nat, b5: nat, high: nat)
    requires b0 <= 1 && b1 <= 1 && b2 <= 1 && b3 <= 1 && b4 <= 1 && b5 <= 1
    requires b as int == b0 + 2 * b1 + 4 * b2 + 8 * b3 + 16 * b4 + 32 * b5 + 64 * high
    ensures (HasBit(b, 1) <==> b0 == 1) && (HasBit(b, 2) <==> b1 == 1) && (HasBit(b, 4) <==> b2 == 1)
    ensures (HasBit(b, 8) <==> b3 == 1) && (HasBit(b, 16) <==> b4 == 1) && (HasBit(b, 32) <==> b5 == 1)
  {
    hide HasBit;
    BitOf(b, 0, b0, b1 + 2 * b2 + 4 * b3 + 8 * b4 + 16 * b5 + 32 * high, 1);
    BitOf(b, b0, b1, b2 + 2 * b3 + 4 * b4 + 8 * b5 + 16 * high, 2);
    BitOf(b, b0 + 2 * b1, b2, b3 + 2 * b4 + 4 * b5 + 8 * high, 4);
    BitOf(b, b0 + 2 * b1 + 4 * b2, b3, b4 + 2 * b5 + 4 * high, 8);
    BitOf(b, b0 + 2 * b1 + 4 * b2 + 8 * b3, b4, b5 + 2 * high, 16);
    BitOf(b, b0 + 2 * b1 + 4 * b2 + 8 * b3 + 16 * b4, b5, high, 32);
  }

  lemma WeightTimes(bit: bool, weight: nat)
    ensures Weight(bit, weight) == weight * Weight(bit, 1) && Weight(bit, 1) <= 1
    ensures bit <==> Weight(bit, 1) == 1
  {
  }

  /** The attribute byte: six bits of weight 1 to 32 are the six flags, and the two above them mean nothing. */
  lemma AttributeBits(b: byte, readOnly: bool, hidden: bool, system: bool, volume: bool, directory: bool, archive: bool,
                      high: nat)
    requires b as int == Weight(readOnly, 1) + Weight(hidden, 2) + Weight(system, 4) + Weight(volume, 8)
                         + Weight(directory, 16) + Weight(archive, 32) + 64 * high
    ensures AttributesFromByte(b) == Attributes(readOnly, hidden, system, volume, directory, archive)
    ensures HasBit(b, 8) <==> volume
  {
    WeightTimes(readOnly, 1);
    WeightTimes(hidden, 2);
    WeightTimes(system, 4);
    WeightTimes(volume, 8);
    WeightTimes(directory, 16);
    WeightTimes(archive, 32);
    hide Weight, HasBit;
    SixBits(b, Weight(readOnly, 1), Weight(hidden, 1), Weight(system, 1), Weight(volume, 1), Weight(directory, 1),
            Weight(archive, 1), high);
  }

  /** `DirEntry::parse` on every slot: nothing for a first byte 0x00 or 0xE5 and for a volume label; else the name, the
      six flags, and cluster and size from their bytes, whatever the flags are. */
  lemma SlotFields(s: Slot, readOnly: bool, hidden: bool, system: bool, volume: bool, directory: bool, archive: bool,
                   high: nat)
    requires s[11] as int == Weight(readOnly, 1) + Weight(hidden, 2) + Weight(system, 4) + Weight(volume, 8)
                             + Weight(directory, 16) + Weight(archive, 32) + 64 * high
    ensures ParseSlot(s) == None <==> s[0] == 0x00 || s[0] == 0xE5 || volume
    ensures ParseSlot(s).Some? ==>
              var e := ParseSlot(s).value;
              && e.attrs.readOnly == readOnly && e.attrs.hidden == hidden && e.attrs.system == system
              && !e.attrs.volumeId && e.attrs.directory == directory && e.attrs.archive == archive
              && (e.IsDir() <==> directory) && (e.IsFile() <==> !directory)
              && e.firstCluster == s[26] as int + 0x100 * s[27] as int + 0x1_0000 * s[20] as int
                                   + 0x100_0000 * s[21] as int
              && e.size == s[28] as int + 0x100 * s[29] as int + 0x1_0000 * s[30] as int + 0x100_0000 * s[31] as int
              && e.name == Decode(s[..11])
  {
    AttributeBits(s[11], readOnly, hidden, system, volume, directory, archive, high);
  }

  lemma WeightOfBit(n: nat, weight: nat)
    ensures Weight(n % 2 == 1, weight) == n % 2 * weight
  {
  }

  /** Every byte has such bits. */
  lemma BitsOfByte(b: byte)
    ensures var n := b as int;
            n == Weight(n % 2 == 1, 1) + Weight(n / 2 % 2 == 1, 2) + Weight(n / 4 % 2 == 1, 4)
                 + Weight(n / 8 % 2 == 1, 8) + Weight(n / 16 % 2 == 1, 16) + Weight(n / 32 % 2 == 1, 32) + 64 * (n / 64)
  {
    var n := b as int;
    WeightOfBit(n, 1);
    WeightOfBit(n / 2, 2);
    WeightOfBit(n / 4, 4);
    WeightOfBit(n / 8, 8);
    WeightOfBit(n / 16, 16);
    WeightOfBit(n / 32, 32);
    hide Weight;
    assert n / 64 == n / 32 / 2 && n / 32 == n / 16 / 2 && n / 16 == n / 8 / 2;
    assert n / 8 == n / 4 / 2 && n / 4 == n / 2 / 2;
  }

  /** The slot that a write lays down, byte by byte. */
  lemma WrittenSlot(raw: RawName, first: nat, size: nat)
    requires first < 0x1_0000_0000 && size < 0x1_0000_0000
    ensures var s := FileSlot(raw, first, size);
            && (forall k :: 0 <= k < 11 ==> s[k] == raw[k])
            && s[11] == 0x20
            && (forall k :: 12 <= k < 20 || 22 <= k < 26 ==> s[k] == 0)
            && s[26] as int + 0x100 * s[27] as int + 0x1_0000 * s[20] as int + 0x100_0000 * s[21] as int == first
            && s[28] as int + 0x100 * s[29] as int + 0x1_0000 * s[30] as int + 0x100_0000 * s[31] as int == size
  {
    var s := FileSlot(raw, first, size);
    FileSlotFields(raw, first, size);
    assert s[..11] == raw;
    assert s[12..20] == Zeros(8) && s[22..26] == Zeros(4);
    forall k | 12 <= k < 20 || 22 <= k < 26 ensures s[k] == 0 {
      assert k < 20 ==> s[k] == s[12..20][k - 12];
      assert k >= 22 ==> s[k] == s[22..26][k - 22];
    }
  }

  /** Entering a slot writes its 32 bytes, and one zero right behind it if it took the place of the end mark and its
      cluster goes on there; no other byte changes. */
  lemma EnteredBytes(d: seq<byte>, free: FreeSlot, s: Slot, k: nat)
    requires free.offset + 32 <= free.clusterEnd <= |d| && k < |d|
    ensures EnterFree(d, free, s).result == Ok(())
    ensures EnterFree(d, free, s).disk[k]
            == if free.offset <= k < free.offset + 32 then s[k - free.offset]
               else if free.wasEnd && k == free.offset + 32 && k < free.clusterEnd then 0
               else d[k]
  {
  }

  /** Slots are 32 bytes; 0x00 ends a directory, 0x00 and 0xE5 are free, and a raw name is compared on 11 bytes. */
  lemma SlotMarks(data: seq<byte>, i: nat, s: Slot, raw: RawName)
    ensures |Chunks(data)| == |data| / 32
    ensures i < |data| / 32 ==> Chunks(data)[i] == data[32 * i..32 * i + 32]
    ensures IsFree(s) <==> s[0] == 0x00 || s[0] == 0xE5
    ensures Matches(s, raw) <==> s[0] != 0xE5 && forall k :: 0 <= k < 11 ==> s[k] == raw[k]
  {
    if forall k :: 0 <= k < 11 ==> s[k] == raw[k] { assert s[..11] == raw; }
    assert forall k :: 0 <= k < 11 ==> s[..11][k] == s[k];
  }

  /** A directory cluster is read up to the first slot that starts with 0x00. */
  lemma RowStops(row: Row, a: nat)
    requires a <= |row| && forall b :: 0 <= b < a ==> row[b][0] != 0x00
    requires a < |row| ==> row[a][0] == 0x00
    ensures LiveRow(row) == row[..a]
  {
    if a < |row| {
      LiveRowIs(row, a);
    } else {
      LiveRowFull(row);
      assert row[..a] == row;
    }
  }

  /** The listing has one entry for every slot that shows one, in their order. */
  lemma ListingGrows(slots: seq<Slot>, s: Slot)
    ensures Listing([]) == []
    ensures ParseSlot(s) == None ==> Listing(slots + [s]) == Listing(slots)
    ensures ParseSlot(s).Some? ==> Listing(slots + [s]) == Listing(slots) + [ParseSlot(s).value]
  {
    ListingConcat(slots, [s]);
    ListingOne(s);
  }

  /** A name is looked up by comparing capitals on both sides: the first entry whose name has the target's capitals is
      found, and nothing when there is none. */
  lemma {:induction false} NameLookup(entries: seq<DirEntry>, name: string, k: nat)
    requires k <= |entries| && forall i :: 0 <= i < k ==> Upper(entries[i].name) != Upper(name)
    requires k < |entries| ==> Upper(entries[k].name) == Upper(name)
    ensures FindByName(entries, Upper(name)) == if k < |entries| then Some(entries[k]) else None
    decreases k
  {
    if k > 0 { NameLookup(entries[1..], name, k - 1); }
  }
}

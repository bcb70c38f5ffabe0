/** Writing table entries: every copy at once, one entry at a time. */
module Tables {
  import opened Wrappers
  import opened Bytes
  import opened Chains
  import opened Geometry

  /** How a mutating operation ended, and the buffer it left. */
  datatype Outcome<+T> = Outcome(result: Result<T>, disk: seq<byte>)

  // ---------- what the loops do to the bytes ----------

  /** `write_fat_entry_all` from the `i`-th copy on. */
  function SetEntry(g: Geo, d: seq<byte>, c: nat, v: nat, i: nat): (o: Outcome<()>)
    ensures |o.disk| == |d|
    decreases g.numFats - i
  {
    if i >= g.numFats then Outcome(Ok(()), d)
    else if EntryOff(g, i, c) + 4 > |d| then Outcome(Err(OutOfBounds), d)
    else SetEntry(g, Splice(d, EntryOff(g, i, c), ToLe32(v % FAT_RANGE)), c, v, i + 1)
  }

  /** The loop of `free_chain`. */
  function ClearEntries(g: Geo, d: seq<byte>, ch: seq<nat>): (o: Outcome<()>)
    ensures |o.disk| == |d|
    decreases |ch|
  {
    if ch == [] then Outcome(Ok(()), d) else
      var o := SetEntry(g, d, ch[0], 0, 0);
      if o.result.Err? then o else ClearEntries(g, o.disk, ch[1..])
  }

  /** The linking loop of `alloc_chain`. */
  function LinkEntries(g: Geo, d: seq<byte>, ch: seq<nat>): (o: Outcome<()>)
    ensures |o.disk| == |d|
    decreases |ch|
  {
    if ch == [] then Outcome(Ok(()), d) else
      var o := SetEntry(g, d, ch[0], if |ch| > 1 then ch[1] else EOC, 0);
      if o.result.Err? then o else LinkEntries(g, o.disk, ch[1..])
  }

  // ---------- what that means for the volume ----------

  /** Only bytes of the table area differ. */
  ghost predicate TablesOnly(g: Geo, d: seq<byte>, d': seq<byte>) {
    && |d'| == |d|
    && forall k :: 0 <= k < |d| && (k < g.fatStart || g.dataStart <= k) ==> d'[k] == d[k]
  }

  /** The table becomes `fat`, in every copy; nothing outside the tables changes. */
  ghost predicate TableEffect(g: Geo, d: seq<byte>, d': seq<byte>, fat: Fat)
    requires Layout(g, |d|)
  {
    && TablesOnly(g, d, d')
    && View(g, d') == Vol(fat, View(g, d).data)
    && (Mirrored(g, d) ==> Mirrored(g, d'))
  }

  /** Copies `from..to` of entry `c` hold `bytes`; every other table byte is as before. */
  ghost predicate CopiesWritten(g: Geo, d: seq<byte>, d': seq<byte>, c: nat, bytes: seq<byte>, from: nat, to: nat)
    requires Layout(g, |d|) && |d'| == |d| && |bytes| == 4
  {
    forall j, k :: 0 <= j < g.numFats && 0 <= k < g.fatLen ==>
      FatByte(g, d', j, k)
      == if from <= j < to && 4 * c <= k < 4 * c + 4 then bytes[k - 4 * c] else FatByte(g, d, j, k)
  }

  lemma WriteOneCopy(g: Geo, d: seq<byte>, i: nat, c: nat, bytes: seq<byte>)
    requires Layout(g, |d|) && c <= Top(g, |d|) && i < g.numFats && |bytes| == 4
    ensures EntryOff(g, i, c) + 4 <= |d|
    ensures var d' := Splice(d, EntryOff(g, i, c), bytes);
            TablesOnly(g, d, d') && CopiesWritten(g, d, d', c, bytes, i, i + 1)
  {
    EntryBounds(g, |d|, i, c);
    var d' := Splice(d, EntryOff(g, i, c), bytes);
    forall j, k | 0 <= j < g.numFats && 0 <= k < g.fatLen
      ensures FatByte(g, d', j, k)
              == if i <= j < i + 1 && 4 * c <= k < 4 * c + 4 then bytes[k - 4 * c] else FatByte(g, d, j, k)
    {
      SpliceFatByte(g, d, i, c, bytes, j, k);
    }
  }

  lemma {:induction false} SetEntryBytes(g: Geo, d: seq<byte>, c: nat, v: nat, i: nat)
    requires Layout(g, |d|) && c <= Top(g, |d|) && i <= g.numFats
    ensures var o := SetEntry(g, d, c, v, i);
            && o.result == Ok(()) && TablesOnly(g, d, o.disk)
            && CopiesWritten(g, d, o.disk, c, ToLe32(v % FAT_RANGE), i, g.numFats)
    decreases g.numFats - i
  {
    if i < g.numFats {
      var bytes := ToLe32(v % FAT_RANGE);
      WriteOneCopy(g, d, i, c, bytes);
      SetEntryBytes(g, Splice(d, EntryOff(g, i, c), bytes), c, v, i + 1);
    }
  }

  /** Overwriting one entry of one copy touches no other table byte. */
  lemma SpliceFatByte(g: Geo, d: seq<byte>, i: nat, c: nat, bytes: seq<byte>, j: nat, k: nat)
    requires Layout(g, |d|) && c <= Top(g, |d|) && i < g.numFats && |bytes| == 4
    requires j < g.numFats && k < g.fatLen
    requires EntryOff(g, i, c) + 4 <= |d|
    ensures FatByte(g, Splice(d, EntryOff(g, i, c), bytes), j, k)
            == if j == i && 4 * c <= k < 4 * c + 4 then bytes[k - 4 * c] else FatByte(g, d, j, k)
  {
    EntryBounds(g, |d|, i, c);
    CopyBounds(g, |d|, j, g.numFats);
    if j < i { CopyBounds(g, |d|, j, i); }
    if i < j { CopyBounds(g, |d|, i, j); }
  }

  lemma FatValueBytes(g: Geo, d: seq<byte>, c: nat)
    requires Layout(g, |d|) && c <= Top(g, |d|)
    ensures 4 * c + 4 <= g.fatLen
    ensures FatValue(g, d, c)
            == (FatByte(g, d, 0, 4 * c) as int + 256 * (FatByte(g, d, 0, 4 * c + 1) as int)
                + 0x1_0000 * (FatByte(g, d, 0, 4 * c + 2) as int) + 0x100_0000 * (FatByte(g, d, 0,
                  4 * c + 3) as int)) % FAT_RANGE
  {
    EntryBounds(g, |d|, 0, c);
  }

  lemma SameDataView(g: Geo, d: seq<byte>, d': seq<byte>)
    requires Layout(g, |d|) && TablesOnly(g, d, d')
    ensures View(g, d').data == View(g, d).data
  {
    forall c | 0 <= c <= Top(g, |d|) ensures ClusterBytes(g, d', c) == ClusterBytes(g, d, c) {
      if c >= FIRST_CLUSTER { ClusterBounds(g, |d|, c); }
    }
  }

  /** One entry write sets the four bytes of that entry in every copy and nothing else; the table takes the value. */
  lemma SetEntryEffect(g: Geo, d: seq<byte>, c: nat, v: nat)
    requires Layout(g, |d|) && c <= Top(g, |d|) && v < FAT_RANGE
    ensures SetEntry(g, d, c, v, 0).result == Ok(())
    ensures CopiesWritten(g, d, SetEntry(g, d, c, v, 0).disk, c, ToLe32(v % FAT_RANGE), 0, g.numFats)
    ensures TableEffect(g, d, SetEntry(g, d, c, v, 0).disk, View(g, d).fat[c := v])
  {
    SetEntryBytes(g, d, c, v, 0);
    WrittenEffect(g, d, SetEntry(g, d, c, v, 0).disk, c, ToLe32(v % FAT_RANGE), v);
  }

  lemma WrittenEffect(g: Geo, d: seq<byte>, d': seq<byte>, c: nat, bytes: seq<byte>, v: nat)
    requires Layout(g, |d|) && TablesOnly(g, d, d') && c <= Top(g, |d|) && v < FAT_RANGE
    requires |bytes| == 4 && Le32(bytes, 0) == v && CopiesWritten(g, d, d', c, bytes, 0, g.numFats)
    ensures TableEffect(g, d, d', View(g, d).fat[c := v])
  {
    NoWrapFat(v);
    SetEntryFat(g, d, d', c, bytes);
    SameDataView(g, d, d');
    MirrorKept(g, d, d', c, bytes);
  }

  lemma NoWrapFat(v: nat)
    requires v < FAT_RANGE
    ensures v % FAT_RANGE == v
  {
  }

  lemma SetEntryFat(g: Geo, d: seq<byte>, d': seq<byte>, c: nat, bytes: seq<byte>)
    requires Layout(g, |d|) && |d'| == |d| && c <= Top(g, |d|)
    requires |bytes| == 4 && CopiesWritten(g, d, d', c, bytes, 0, g.numFats)
    ensures View(g, d').fat == View(g, d).fat[c := Le32(bytes, 0) % FAT_RANGE]
  {
    forall b | 0 <= b <= Top(g, |d|)
      ensures FatValue(g, d', b) == if b == c then Le32(bytes, 0) % FAT_RANGE else FatValue(g, d, b)
    {
      SetEntryValue(g, d, d', c, bytes, b);
    }
  }

  lemma MirrorKept(g: Geo, d: seq<byte>, d': seq<byte>, c: nat, bytes: seq<byte>)
    requires Layout(g, |d|) && |d'| == |d| && |bytes| == 4
    requires CopiesWritten(g, d, d', c, bytes, 0, g.numFats)
    ensures Mirrored(g, d) ==> Mirrored(g, d')
  {
  }

  lemma SetEntryValue(g: Geo, d: seq<byte>, d': seq<byte>, c: nat, bytes: seq<byte>, b: nat)
    requires Layout(g, |d|) && |d'| == |d| && c <= Top(g, |d|) && b <= Top(g, |d|)
    requires |bytes| == 4 && CopiesWritten(g, d, d', c, bytes, 0, g.numFats)
    ensures FatValue(g, d', b) == if b == c then Le32(bytes, 0) % FAT_RANGE else FatValue(g, d, b)
  {
    FatValueBytes(g, d, b);
    FatValueBytes(g, d', b);
    forall t | 0 <= t < 4
      ensures FatByte(g, d', 0, 4 * b + t) == if b == c then bytes[t] else FatByte(g, d, 0, 4 * b + t)
    {
    }
  }

  // ---------- the reserved bits ----------

  /** The top four bits of an entry, which no reader looks at. */
  function ReservedBits(g: Geo, d: seq<byte>, j: nat, c: nat): nat
    requires Layout(g, |d|) && j < g.numFats && c <= Top(g, |d|)
  {
    EntryBounds(g, |d|, j, c);
    FatByte(g, d, j, 4 * c + 3) / 16
  }

  lemma TopNibble(v: nat)
    requires v < FAT_RANGE
    ensures ToLe32(v)[3] / 16 == 0
  {
  }

  /** An entry write clears the reserved bits of that entry in every copy, and no others: they survive exactly where
      they were zero. */
  lemma ReservedBitsCleared(g: Geo, d: seq<byte>, c: nat, v: nat, j: nat, b: nat)
    requires Layout(g, |d|) && c <= Top(g, |d|) && v < FAT_RANGE && j < g.numFats && b <= Top(g, |d|)
    ensures var d' := SetEntry(g, d, c, v, 0).disk;
            && ReservedBits(g, d', j, b) == (if b == c then 0 else ReservedBits(g, d, j, b))
            && (ReservedBits(g, d', j, b) == ReservedBits(g, d, j, b) <==> b != c || ReservedBits(g, d, j, b) == 0)
  {
    SetEntryEffect(g, d, c, v);
    NoWrapFat(v);
    TopNibble(v);
    EntryBounds(g, |d|, j, b);
    EntryBounds(g, |d|, j, c);
    hide View, Layout, Mirrored;
    assert 4 * c <= 4 * b + 3 < 4 * c + 4 <==> b == c;
  }

  lemma {:induction false} ClearEntriesEffect(g: Geo, d: seq<byte>, ch: seq<nat>)
    requires Layout(g, |d|) && AllInRange(View(g, d).fat, ch)
    ensures ClearEntries(g, d, ch).result == Ok(())
    ensures TableEffect(g, d, ClearEntries(g, d, ch).disk, Zero(View(g, d).fat, ch))
    decreases |ch|
  {
    if ch != [] {
      assert InRange(View(g, d).fat, ch[0]);
      SetEntryEffect(g, d, ch[0], 0);
      var d1 := SetEntry(g, d, ch[0], 0, 0).disk;
      ClearEntriesEffect(g, d1, ch[1..]);
    }
  }

  /** In every copy the four bytes of every entry of `ch` are zero; every other table byte is as before. */
  ghost predicate CopiesCleared(g: Geo, d: seq<byte>, d': seq<byte>, ch: seq<nat>)
    requires Layout(g, |d|) && |d'| == |d|
  {
    forall j, k :: 0 <= j < g.numFats && 0 <= k < g.fatLen ==>
      FatByte(g, d', j, k) == if k / 4 in ch then 0 else FatByte(g, d, j, k)
  }

  lemma ZeroBytes()
    ensures forall t :: 0 <= t < 4 ==> ToLe32(0)[t] == 0
  {
  }

  /** Freeing a chain clears its entries in every copy, whether or not the copies were equal, and touches no other
      byte. */
  lemma {:induction false} ClearEntriesBytes(g: Geo, d: seq<byte>, ch: seq<nat>)
    requires Layout(g, |d|) && AllInRange(View(g, d).fat, ch)
    ensures var d' := ClearEntries(g, d, ch).disk;
            TablesOnly(g, d, d') && CopiesCleared(g, d, d', ch)
    decreases |ch|
  {
    if ch != [] {
      assert InRange(View(g, d).fat, ch[0]);
      SetEntryEffect(g, d, ch[0], 0);
      var d1 := SetEntry(g, d, ch[0], 0, 0).disk;
      ClearEntriesBytes(g, d1, ch[1..]);
      var d' := ClearEntries(g, d1, ch[1..]).disk;
      assert CopiesWritten(g, d, d1, ch[0], ToLe32(0), 0, g.numFats);
      ClearedStep(g, d, d1, d', ch);
    }
  }

  lemma ClearedStep(g: Geo, d: seq<byte>, d1: seq<byte>, d': seq<byte>, ch: seq<nat>)
    requires Layout(g, |d|) && |d1| == |d'| == |d| && ch != []
    requires CopiesWritten(g, d, d1, ch[0], ToLe32(0), 0, g.numFats) && CopiesCleared(g, d1, d', ch[1..])
    ensures CopiesCleared(g, d, d', ch)
  {
    ZeroBytes();
    assert ch == [ch[0]] + ch[1..];
    forall j, k | 0 <= j < g.numFats && 0 <= k < g.fatLen
      ensures FatByte(g, d', j, k) == if k / 4 in ch then 0 else FatByte(g, d, j, k)
    {
      assert k / 4 == ch[0] <==> 4 * ch[0] <= k < 4 * ch[0] + 4;
    }
  }

  lemma {:induction false} LinkEntriesEffect(g: Geo, d: seq<byte>, ch: seq<nat>)
    requires Layout(g, |d|) && AllInRange(View(g, d).fat, ch)
    ensures LinkEntries(g, d, ch).result == Ok(())
    ensures TableEffect(g, d, LinkEntries(g, d, ch).disk, Link(View(g, d).fat, ch))
    decreases |ch|
  {
    if ch != [] {
      assert InRange(View(g, d).fat, ch[0]);
      assert |ch| > 1 ==> InRange(View(g, d).fat, ch[1]);
      var v := if |ch| > 1 then ch[1] else EOC;
      SetEntryEffect(g, d, ch[0], v);
      LinkEntriesEffect(g, SetEntry(g, d, ch[0], v, 0).disk, ch[1..]);
    }
  }
}

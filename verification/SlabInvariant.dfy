/** Who owns which bytes of the heap: the invariant behind the free lists, and what every operation does to it. */
module SlabInvariant {
  import opened Wrappers
  import opened Bytes
  import opened Bits
  import opened Slab

  // ---------- the ledger ----------

  /** Per class: the free blocks in list order, the live blocks, the chunks carved, the most blocks ever live at once;
      and the blocks cut straight from the bump pointer, as address and size. */
  datatype Ledger = Ledger(
    lists: seq<seq<nat>>, live: seq<set<nat>>, chunks: seq<nat>, peak: seq<nat>, larges: seq<(nat, nat)>)

  /** The size of class `i`: the entry of `SIZE_CLASSES`, as a power of two. */
  function SizeOf(i: nat): (n: nat)
    ensures 8 <= n
  {
    8 * Pow2(i)
  }

  /** Blocks per chunk: 4096 over the block size. */
  function PerChunk(i: nat): (n: nat)
    requires i < CLASSES
    ensures n >= 1
  {
    Pow2(9 - i)
  }

  lemma ClassFacts(i: nat)
    requires i < CLASSES
    ensures SizeOf(i) == SIZE_CLASSES[i] && SizeOf(i) == Pow2(i + 3)
    ensures Times(PerChunk(i), SizeOf(i)) == CHUNK_SIZE && PerChunk(i) == CHUNK_SIZE / SIZE_CLASSES[i]
    ensures SizeOf(i) <= CHUNK_SIZE && IsMultiple(CHUNK_SIZE, SizeOf(i))
  {
    assert Pow2(3) == 8;
    assert Pow2(6) == 64;
    assert Pow2(9) == 512;
    assert Pow2(12) == 4096;
    assert Times(PerChunk(i), SizeOf(i)) == CHUNK_SIZE;
  }

  ghost predicate Shape(ledger: Ledger) {
    |ledger.lists| == |ledger.live| == |ledger.chunks| == |ledger.peak| == CLASSES
  }

  /** `b` is a block of class `i`, free or live. */
  ghost predicate IsBlock(ledger: Ledger, i: nat, b: nat)
    requires Shape(ledger)
  {
    i < CLASSES && (b in ledger.lists[i] || b in ledger.live[i])
  }

  ghost predicate Apart(a: nat, n: nat, b: nat, m: nat) {
    a + n <= b || b + m <= a
  }

  // ---------- the invariant ----------

  ghost predicate HeapOk(s: SlabState) {
    s.initialized && 0 < s.heapStart <= s.bump <= s.heapEnd <= |s.mem| <= WORD && s.heapEnd + CHUNK_SIZE <= WORD
  }

  /** The list in memory that starts at `head` is exactly `list`, and ends. */
  ghost predicate ListAt(mem: seq<byte>, head: nat, list: seq<nat>)
    decreases |list|
  {
    if list == [] then head == 0
    else head == list[0] && 0 < head && head + 8 <= |mem| && ListAt(mem, Word(mem, head), list[1..])
  }

  /** Every free list is finite and acyclic, and holds no live block. */
  ghost predicate ListsOk(s: SlabState, ledger: Ledger)
    requires Shape(ledger)
  {
    forall i :: 0 <= i < CLASSES ==>
      && ListAt(s.mem, s.heads[i], ledger.lists[i])
      && Distinct(ledger.lists[i])
      && (forall b :: b in ledger.lists[i] ==> b !in ledger.live[i])
  }

  ghost predicate Inside(s: SlabState, a: nat, n: nat) {
    s.heapStart <= a && a + n <= s.bump
  }

  /** Every block lies inside the used part of the heap, at a multiple of its size. */
  ghost predicate Placed(s: SlabState, ledger: Ledger)
    requires Shape(ledger)
  {
    forall i, b :: IsBlock(ledger, i, b) ==> Inside(s, b, SizeOf(i)) && IsMultiple(b, SizeOf(i))
  }

  /** No two blocks overlap, free or live, of whatever class. */
  ghost predicate BlocksApart(ledger: Ledger)
    requires Shape(ledger)
  {
    forall i, b, j, c :: IsBlock(ledger, i, b) && IsBlock(ledger, j, c) && (i != j || b != c) ==>
      Apart(b, SizeOf(i), c, SizeOf(j))
  }

  /** The large blocks are inside the used heap, in address order, and overlap no other block. */
  ghost predicate LargesOk(s: SlabState, ledger: Ledger)
    requires Shape(ledger)
  {
    && (forall k :: 0 <= k < |ledger.larges| ==> Inside(s, ledger.larges[k].0, ledger.larges[k].1))
    && (forall k, m :: 0 <= k < m < |ledger.larges| ==> ledger.larges[k].0 + ledger.larges[k].1 <= ledger.larges[m].0)
    && (forall k, i, b :: 0 <= k < |ledger.larges| && IsBlock(ledger, i, b) ==>
          Apart(ledger.larges[k].0, ledger.larges[k].1, b, SizeOf(i)))
  }

  /** Ownership of the heap's bytes. */
  ghost predicate Owned(s: SlabState, ledger: Ledger) {
    Shape(ledger) && HeapOk(s) && ListsOk(s, ledger) && Placed(s, ledger) && BlocksApart(ledger) && LargesOk(s, ledger)
  }

  /** Free and live blocks of class `i` make up its chunks; its chunks are the fewest that held its peak. */
  ghost predicate CountOk(ledger: Ledger, i: nat)
    requires Shape(ledger) && i < CLASSES
  {
    && |ledger.lists[i]| + |ledger.live[i]| == Times(ledger.chunks[i], PerChunk(i))
    && |ledger.live[i]| <= ledger.peak[i] <= Times(ledger.chunks[i], PerChunk(i))
    && (ledger.chunks[i] > 0 ==> ledger.peak[i] > Times(ledger.chunks[i] - 1, PerChunk(i)))
  }

  ghost predicate Counted(ledger: Ledger)
    requires Shape(ledger)
  {
    forall i :: 0 <= i < CLASSES ==> CountOk(ledger, i)
  }

  ghost predicate Inv(s: SlabState, ledger: Ledger) {
    Owned(s, ledger) && Counted(ledger)
  }

  // ---------- lists in memory ----------

  lemma {:induction false} ListFrame(mem: seq<byte>, mem': seq<byte>, head: nat, list: seq<nat>)
    requires |mem'| == |mem| && ListAt(mem, head, list)
    requires forall b :: b in list ==> Word(mem', b) == Word(mem, b)
    ensures ListAt(mem', head, list)
    decreases |list|
  {
    if list != [] {
      assert list[0] in list;
      ListFrame(mem, mem', Word(mem, head), list[1..]);
    }
  }

  /** Memory changes that stay away from every free block leave all lists as they are. */
  lemma ListsFrame(s: SlabState, ledger: Ledger, mem': seq<byte>)
    requires Shape(ledger) && ListsOk(s, ledger) && |mem'| == |s.mem|
    requires forall i, b :: 0 <= i < CLASSES && b in ledger.lists[i] ==> Word(mem', b) == Word(s.mem, b)
    ensures ListsOk(s.(mem := mem'), ledger)
  {
    forall i | 0 <= i < CLASSES ensures ListAt(mem', s.heads[i], ledger.lists[i]) {
      ListFrame(s.mem, mem', s.heads[i], ledger.lists[i]);
    }
  }

  // ---------- pushing a block ----------

  /** The ledger with `b` at the front of list `i`. */
  ghost function Freed(ledger: Ledger, i: nat, b: nat): Ledger
    requires Shape(ledger) && i < CLASSES
  {
    ledger.(lists := ledger.lists[i := [b] + ledger.lists[i]])
  }

  /** A stretch of the used heap that belongs to nobody yet. */
  ghost predicate Unowned(s: SlabState, ledger: Ledger, a: nat, n: nat)
    requires Shape(ledger)
  {
    && Inside(s, a, n)
    && (forall i, b :: IsBlock(ledger, i, b) ==> Apart(a, n, b, SizeOf(i)))
    && (forall k :: 0 <= k < |ledger.larges| ==> Apart(ledger.larges[k].0, ledger.larges[k].1, a, n))
  }

  /** No block's first eight bytes reach into the `n` bytes at `a`. */
  ghost predicate Clear(ledger: Ledger, a: nat, n: nat)
    requires Shape(ledger)
  {
    forall i: nat, b: nat :: IsBlock(ledger, i, b) ==> b + 8 <= a || a + n <= b
  }

  lemma UnownedIsClear(s: SlabState, ledger: Ledger, a: nat, n: nat)
    requires Shape(ledger) && Unowned(s, ledger, a, n)
    ensures Clear(ledger, a, n)
  {
    forall i: nat, b: nat | IsBlock(ledger, i, b) ensures b + 8 <= a || a + n <= b {
      assert Apart(a, n, b, SizeOf(i));
    }
  }

  /** No block of the list has its first eight bytes reaching into `[a, e)`. */
  ghost predicate Away(list: seq<nat>, a: nat, e: nat) {
    forall b :: b in list ==> b + 8 <= a || e <= b
  }

  /** A list in memory after a push of a block that none of its blocks touches. */
  lemma PushList(s: SlabState, i: nat, b: nat, list: seq<nat>)
    requires i < CLASSES && ListAt(s.mem, s.heads[i], list) && Away(list, b, b + 8)
    requires 0 < b && b + 8 <= |s.mem| <= WORD
    ensures ListAt(Push(s, i, b).mem, Push(s, i, b).heads[i], [b] + list)
  {
    var s' := Push(s, i, b);
    forall c | c in list ensures Word(s'.mem, c) == Word(s.mem, c) {
      WordFrame(s.mem, s'.mem, c);
    }
    ListFrame(s.mem, s'.mem, s.heads[i], list);
    SetThenGet(s.mem, b, s.heads[i]);
    assert ([b] + list)[1..] == list;
  }

  /** The lists after a push of a block that no other block touches. */
  lemma PushLists(s: SlabState, ledger: Ledger, i: nat, b: nat)
    requires Shape(ledger) && ListsOk(s, ledger) && i < CLASSES && Clear(ledger, b, 8)
    requires 0 < b && b + 8 <= |s.mem| <= WORD
    ensures ListsOk(Push(s, i, b), Freed(ledger, i, b))
  {
    assert !IsBlock(ledger, i, b);
    forall c | c in ledger.lists[i] ensures c + 8 <= b || b + 8 <= c {
      assert IsBlock(ledger, i, c);
    }
    PushList(s, i, b, ledger.lists[i]);
    forall j: nat | j < CLASSES && j != i ensures ListAt(Push(s, i, b).mem, Push(s, i, b).heads[j], ledger.lists[j]) {
      PushOther(s, ledger, i, b, j);
    }
    hide Push, ListAt, Clear;
  }

  lemma PushOther(s: SlabState, ledger: Ledger, i: nat, b: nat, j: nat)
    requires Shape(ledger) && ListsOk(s, ledger) && i < CLASSES && Clear(ledger, b, 8) && j < CLASSES && j != i
    ensures ListAt(Push(s, i, b).mem, Push(s, i, b).heads[j], ledger.lists[j])
  {
    var mem' := Push(s, i, b).mem;
    forall c | c in ledger.lists[j] ensures Word(mem', c) == Word(s.mem, c) {
      assert IsBlock(ledger, j, c);
      WordFrame(s.mem, mem', c);
    }
    ListFrame(s.mem, mem', s.heads[j], ledger.lists[j]);
  }

  lemma FreedBlocks(ledger: Ledger, i: nat, b: nat)
    requires Shape(ledger) && i < CLASSES
    ensures forall j, c :: IsBlock(Freed(ledger, i, b), j, c) <==> IsBlock(ledger, j, c) || (j == i && c == b)
  {
  }

  /** Pushing an unowned, well-aligned stretch of one block's size makes it a free block and disturbs nothing. */
  lemma PushOwned(s: SlabState, ledger: Ledger, i: nat, b: nat)
    requires Owned(s, ledger) && i < CLASSES && Unowned(s, ledger, b, SizeOf(i)) && IsMultiple(b, SizeOf(i))
    ensures Owned(Push(s, i, b), Freed(ledger, i, b))
  {
    UnownedIsClear(s, ledger, b, SizeOf(i));
    PushLists(s, ledger, i, b);
    FreedBlocks(ledger, i, b);
  }

  // ---------- carving a chunk ----------

  /** The list after `n` blocks from `off` on were pushed one by one. */
  ghost function Carved(off: nat, size: nat, n: nat, list: seq<nat>): seq<nat>
    decreases n
  {
    if n == 0 then list else Carved(off + size, size, n - 1, [off] + list)
  }

  lemma {:induction false} CarvedLength(off: nat, size: nat, n: nat, list: seq<nat>)
    ensures |Carved(off, size, n, list)| == |list| + n
    decreases n
  {
    if n > 0 { CarvedLength(off + size, size, n - 1, [off] + list); }
  }

  /** A refilled list hands its new blocks out from the highest address down. */
  lemma {:induction false} CarvedOrder(off: nat, size: nat, n: nat, list: seq<nat>, k: nat)
    requires k < n
    ensures k < |Carved(off, size, n, list)|
    ensures Carved(off, size, n, list)[k] == off + Times(n - 1 - k, size)
    decreases n
  {
    CarvedLength(off, size, n, list);
    if k < n - 1 {
      CarvedOrder(off + size, size, n - 1, [off] + list, k);
      TimesAdd(n - 2 - k, 1, size);
    } else {
      CarvedTail(off + size, size, n - 1, [off] + list, 0);
    }
  }

  lemma {:induction false} CarvedTail(off: nat, size: nat, n: nat, list: seq<nat>, k: nat)
    requires k < |list|
    ensures |Carved(off, size, n, list)| == |list| + n && Carved(off, size, n, list)[n + k] == list[k]
    decreases n
  {
    CarvedLength(off, size, n, list);
    if n > 0 { CarvedTail(off + size, size, n - 1, [off] + list, k + 1); }
  }

  /** The ledger after `n` blocks from `off` on were pushed on list `i`. */
  ghost function CarvedLedger(ledger: Ledger, i: nat, off: nat, n: nat): Ledger
    requires Shape(ledger) && i < CLASSES
  {
    ledger.(lists := ledger.lists[i := Carved(off, SizeOf(i), n, ledger.lists[i])])
  }

  /** One step of the carving loop, with `n` blocks still to come before `end`. */
  lemma CarveUnfold(s: SlabState, i: nat, size: nat, off: nat, n: nat, end: nat)
    requires i < CLASSES && size > 0 && end == off + Times(n, size)
    ensures n == 0 ==> Carve(s, i, size, off, end) == s
    ensures n > 0 ==>
              && end == off + size + Times(n - 1, size)
              && Carve(s, i, size, off, end) == Carve(Push(s, i, off), i, size, off + size, end)
  {
    if n > 0 {
      TimesAdd(1, n - 1, size);
      assert Times(1, size) == size;
    }
  }

  lemma AwayStep(list: seq<nat>, off: nat, size: nat, end: nat)
    requires Away(list, off, end) && 8 <= size && off + size <= end
    ensures Away(list, off, off + 8) && Away([off] + list, off + size, end)
  {
  }

  /** List `i` is `list`, and stays away from the stretch that is about to be carved. */
  ghost predicate Carvable(s: SlabState, i: nat, off: nat, end: nat, list: seq<nat>)
    requires i < CLASSES
  {
    ListAt(s.mem, s.heads[i], list) && Away(list, off, end) && 0 < off && end <= |s.mem| <= WORD
  }

  lemma PushCarvable(s: SlabState, i: nat, size: nat, off: nat, end: nat, list: seq<nat>)
    requires i < CLASSES && 8 <= size && off + size <= end && Carvable(s, i, off, end, list)
    ensures Carvable(Push(s, i, off), i, off + size, end, [off] + list)
  {
    AwayStep(list, off, size, end);
    PushList(s, i, off, list);
  }

  /** Carving a stretch that the list stays away from pushes its blocks one by one. */
  lemma {:induction false} CarveList(s: SlabState, i: nat, size: nat, off: nat, n: nat, end: nat, list: seq<nat>)
    requires i < CLASSES && 8 <= size && Carvable(s, i, off, end, list) && end == off + Times(n, size)
    ensures Carvable(Carve(s, i, size, off, end), i, end, end, Carved(off, size, n, list))
    decreases n
  {
    hide Carvable, Push, Away, ListAt;
    CarveUnfold(s, i, size, off, n, end);
    if n > 0 {
      var s1, list1 := Push(s, i, off), [off] + list;
      PushCarvable(s, i, size, off, end, list);
      assert Carve(s, i, size, off, end) == Carve(s1, i, size, off + size, end);
      assert Carved(off, size, n, list) == Carved(off + size, size, n - 1, list1);
      CarveList(s1, i, size, off + size, n - 1, end, list1);
    }
  }

  lemma {:induction false} CarvedDistinct(off: nat, size: nat, n: nat, list: seq<nat>)
    requires Distinct(list) && 8 <= size && Away(list, off, off + Times(n, size)) && (n > 0 ==> off !in list)
    ensures Distinct(Carved(off, size, n, list))
    decreases n
  {
    if n > 0 {
      TimesAdd(1, n - 1, size);
      assert Times(1, size) == size;
      AwayStep(list, off, size, off + Times(n, size));
      CarvedDistinct(off + size, size, n - 1, [off] + list);
    }
  }

  /** Carving touches its own stretch and its own list head only. */
  lemma {:induction false} CarveFrame(s: SlabState, i: nat, size: nat, off: nat, end: nat, b: nat)
    requires i < CLASSES && 8 <= size && (b + 8 <= off || end <= b)
    ensures Word(Carve(s, i, size, off, end).mem, b) == Word(s.mem, b)
    ensures forall j :: 0 <= j < CLASSES && j != i ==> Carve(s, i, size, off, end).heads[j] == s.heads[j]
    decreases end - off
  {
    if off + size <= end {
      WordFrame(s.mem, Push(s, i, off).mem, b);
      CarveFrame(Push(s, i, off), i, size, off + size, end, b);
    }
  }

  lemma {:induction false} CarveKeepsBump(s: SlabState, i: nat, size: nat, off: nat, end: nat)
    requires i < CLASSES && size > 0
    ensures var s' := Carve(s, i, size, off, end);
            && s'.bump == s.bump && s'.heapStart == s.heapStart && s'.heapEnd == s.heapEnd
               && s'.initialized == s.initialized
            && |s'.mem| == |s.mem|
    decreases end - off
  {
    if off + size <= end { CarveKeepsBump(Push(s, i, off), i, size, off + size, end); }
  }

  /** The new blocks are the multiples of the block size inside the stretch. */
  ghost predicate IsPiece(off: nat, size: nat, n: nat, c: nat) {
    exists k: nat :: k < n && off + Times(k, size) == c
  }

  lemma {:induction false} CarvedPieces(off: nat, size: nat, n: nat, list: seq<nat>, c: nat)
    requires c in Carved(off, size, n, list)
    ensures c in list || IsPiece(off, size, n, c)
    decreases n
  {
    if n > 0 {
      CarvedPieces(off + size, size, n - 1, [off] + list, c);
      if IsPiece(off + size, size, n - 1, c) {
        var k: nat :| k < n - 1 && off + size + Times(k, size) == c;
        TimesAdd(1, k, size);
        assert Times(1, size) == size;
        assert off + Times(1 + k, size) == c;
      } else if c !in list {
        assert off + Times(0, size) == c;
      }
    }
  }

  /** A piece lies inside its stretch, is a multiple of its size, and is apart from every other piece. */
  lemma PieceFacts(off: nat, size: nat, n: nat, c: nat)
    requires IsPiece(off, size, n, c) && IsMultiple(off, size)
    ensures off <= c && c + size <= off + Times(n, size) && IsMultiple(c, size)
  {
    var k: nat :| k < n && off + Times(k, size) == c;
    TimesAdd(k, 1, size);
    TimesMono(k + 1, n, size);
    assert Times(1, size) == size;
    MultipleAdd(off, Times(k, size), size);
  }

  lemma PieceInside(off: nat, size: nat, n: nat, c: nat)
    requires IsPiece(off, size, n, c)
    ensures off <= c && c + size <= off + Times(n, size)
  {
    var k: nat :| k < n && off + Times(k, size) == c;
    TimesAdd(k, 1, size);
    TimesMono(k + 1, n, size);
  }

  lemma PiecesApart(off: nat, size: nat, n: nat, c: nat, e: nat)
    requires IsPiece(off, size, n, c) && IsPiece(off, size, n, e) && c != e
    ensures Apart(c, size, e, size)
  {
    var k: nat :| k < n && off + Times(k, size) == c;
    var m: nat :| m < n && off + Times(m, size) == e;
    TimesAdd(k, 1, size);
    TimesAdd(m, 1, size);
    if k < m { TimesMono(k + 1, m, size); } else { TimesMono(m + 1, k, size); }
  }

  lemma CarvedBlocks(ledger: Ledger, i: nat, off: nat, n: nat, j: nat, c: nat)
    requires Shape(ledger) && i < CLASSES && IsBlock(CarvedLedger(ledger, i, off, n), j, c)
    ensures IsBlock(ledger, j, c) || (j == i && IsPiece(off, SizeOf(i), n, c))
  {
    if j == i && c in CarvedLedger(ledger, i, off, n).lists[i] { CarvedPieces(off, SizeOf(i), n, ledger.lists[i], c); }
  }

  lemma CarvedApart(s: SlabState, ledger: Ledger, i: nat, off: nat, n: nat, j: nat, c: nat, k: nat, e: nat)
    requires Shape(ledger) && BlocksApart(ledger) && i < CLASSES && IsMultiple(off, SizeOf(i))
             && Unowned(s, ledger, off, Times(n, SizeOf(i)))
    requires IsBlock(CarvedLedger(ledger, i, off, n), j, c) && IsBlock(CarvedLedger(ledger, i, off, n), k, e)
             && (j != k || c != e)
    ensures Apart(c, SizeOf(j), e, SizeOf(k))
  {
    CarvedBlocks(ledger, i, off, n, j, c);
    CarvedBlocks(ledger, i, off, n, k, e);
    if !IsBlock(ledger, j, c) { PieceFacts(off, SizeOf(i), n, c); }
    if !IsBlock(ledger, k, e) { PieceFacts(off, SizeOf(i), n, e); }
    if !IsBlock(ledger, j, c) && !IsBlock(ledger, k, e) { PiecesApart(off, SizeOf(i), n, c, e); }
  }

  lemma CarvedPlaced(s: SlabState, ledger: Ledger, i: nat, off: nat, n: nat, j: nat, c: nat)
    requires Shape(ledger) && Placed(s, ledger) && i < CLASSES && IsMultiple(off, SizeOf(i))
             && Unowned(s, ledger, off, Times(n, SizeOf(i)))
    requires IsBlock(CarvedLedger(ledger, i, off, n), j, c)
    ensures Inside(s, c, SizeOf(j)) && IsMultiple(c, SizeOf(j))
    ensures IsBlock(ledger, j, c) || (off <= c && c + SizeOf(j) <= off + Times(n, SizeOf(i)))
  {
    CarvedBlocks(ledger, i, off, n, j, c);
    if !IsBlock(ledger, j, c) { PieceFacts(off, SizeOf(i), n, c); }
  }

  lemma CarvedGeometry(s: SlabState, s': SlabState, ledger: Ledger, i: nat, off: nat, n: nat)
    requires Shape(ledger) && Placed(s, ledger) && BlocksApart(ledger) && LargesOk(s, ledger)
    requires i < CLASSES && IsMultiple(off, SizeOf(i)) && Unowned(s, ledger, off, Times(n, SizeOf(i)))
    requires s'.heapStart == s.heapStart && s'.bump == s.bump
    ensures Placed(s', CarvedLedger(ledger, i, off, n)) && LargesOk(s', CarvedLedger(ledger, i, off, n))
  {
    var ledger' := CarvedLedger(ledger, i, off, n);
    forall j, c | IsBlock(ledger', j, c)
      ensures Inside(s', c, SizeOf(j)) && IsMultiple(c, SizeOf(j))
      ensures forall k :: 0 <= k < |ledger.larges| ==> Apart(ledger.larges[k].0, ledger.larges[k].1, c, SizeOf(j))
    {
      CarvedPlaced(s, ledger, i, off, n, j, c);
    }
  }

  lemma CarvedBlocksApart(s: SlabState, ledger: Ledger, i: nat, off: nat, n: nat)
    requires Shape(ledger) && BlocksApart(ledger)
    requires i < CLASSES && IsMultiple(off, SizeOf(i)) && Unowned(s, ledger, off, Times(n, SizeOf(i)))
    ensures BlocksApart(CarvedLedger(ledger, i, off, n))
  {
    var ledger' := CarvedLedger(ledger, i, off, n);
    forall j, c, k, e | IsBlock(ledger', j, c) && IsBlock(ledger', k, e) && (j != k || c != e)
      ensures Apart(c, SizeOf(j), e, SizeOf(k))
    {
      CarvedApart(s, ledger, i, off, n, j, c, k, e);
    }
  }

  /** A list of another class is as it was. */
  lemma CarveOthers(s: SlabState, ledger: Ledger, i: nat, size: nat, off: nat, end: nat, j: nat)
    requires Shape(ledger) && ListsOk(s, ledger) && i < CLASSES && 8 <= size && j < CLASSES && j != i && off <= end
             && Clear(ledger, off, end - off)
    ensures ListAt(Carve(s, i, size, off, end).mem, Carve(s, i, size, off, end).heads[j], ledger.lists[j])
  {
    var s' := Carve(s, i, size, off, end);
    CarveKeepsBump(s, i, size, off, end);
    CarveFrame(s, i, size, off, end, end);
    forall b | b in ledger.lists[j] ensures Word(s'.mem, b) == Word(s.mem, b) {
      assert IsBlock(ledger, j, b);
      CarveFrame(s, i, size, off, end, b);
    }
    ListFrame(s.mem, s'.mem, s.heads[j], ledger.lists[j]);
  }

  lemma CarvedUnused(ledger: Ledger, i: nat, size: nat, off: nat, n: nat)
    requires Shape(ledger) && i < CLASSES && 8 <= size && Clear(ledger, off, Times(n, size))
    requires Distinct(ledger.lists[i]) && forall b :: b in ledger.lists[i] ==> b !in ledger.live[i]
    ensures Distinct(Carved(off, size, n, ledger.lists[i]))
    ensures forall b :: b in Carved(off, size, n, ledger.lists[i]) ==> b !in ledger.live[i]
  {
    if n > 0 { TimesMono(1, n, size); }
    forall b | b in ledger.lists[i] ensures IsBlock(ledger, i, b) {}
    CarvedDistinct(off, size, n, ledger.lists[i]);
    forall b | b in Carved(off, size, n, ledger.lists[i]) ensures b !in ledger.live[i] {
      CarvedPieces(off, size, n, ledger.lists[i], b);
      if b !in ledger.lists[i] {
        PieceInside(off, size, n, b);
        assert !IsBlock(ledger, i, b);
      }
    }
  }

  lemma CarveKeepsLists(s: SlabState, ledger: Ledger, i: nat, size: nat, off: nat, n: nat, end: nat)
    requires Shape(ledger) && ListsOk(s, ledger) && i < CLASSES && 8 <= size && Clear(ledger, off, Times(n, size))
    requires 0 < off && end <= |s.mem| <= WORD && end == off + Times(n, size)
    ensures ListsOk(Carve(s, i, size, off, end),
            ledger.(lists := ledger.lists[i := Carved(off, size, n, ledger.lists[i])]))
  {
    CarvedUnused(ledger, i, size, off, n);
    forall b | b in ledger.lists[i] ensures b + 8 <= off || end <= b {
      assert IsBlock(ledger, i, b);
    }
    CarveList(s, i, size, off, n, end, ledger.lists[i]);
    forall j | 0 <= j < CLASSES && j != i
      ensures ListAt(Carve(s, i, size, off, end).mem, Carve(s, i, size, off, end).heads[j], ledger.lists[j])
    {
      CarveOthers(s, ledger, i, size, off, end, j);
    }
  }

  lemma CarveOwnedLists(s: SlabState, ledger: Ledger, i: nat, off: nat, n: nat)
    requires Shape(ledger) && HeapOk(s) && ListsOk(s, ledger) && i < CLASSES
             && Unowned(s, ledger, off, Times(n, SizeOf(i)))
    ensures ListsOk(Carve(s, i, SizeOf(i), off, off + Times(n, SizeOf(i))), CarvedLedger(ledger, i, off, n))
  {
    hide ListsOk, Clear;
    UnownedIsClear(s, ledger, off, Times(n, SizeOf(i)));
    CarveKeepsLists(s, ledger, i, SizeOf(i), off, n, off + Times(n, SizeOf(i)));
  }

  /** Carving an unowned, aligned stretch turns all of it into free blocks. */
  lemma CarveOwned(s: SlabState, ledger: Ledger, i: nat, off: nat, n: nat)
    requires Owned(s, ledger) && i < CLASSES && IsMultiple(off, SizeOf(i))
    requires Unowned(s, ledger, off, Times(n, SizeOf(i)))
    ensures Owned(Carve(s, i, SizeOf(i), off, off + Times(n, SizeOf(i))), CarvedLedger(ledger, i, off, n))
  {
    var end := off + Times(n, SizeOf(i));
    CarveKeepsBump(s, i, SizeOf(i), off, end);
    CarveOwnedLists(s, ledger, i, off, n);
    CarvedGeometry(s, Carve(s, i, SizeOf(i), off, end), ledger, i, off, n);
    CarvedBlocksApart(s, ledger, i, off, n);
  }
}

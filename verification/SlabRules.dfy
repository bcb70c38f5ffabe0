/** The allocator's rules by their numbers: which class serves a layout, what a large block takes, what is refused. */
module SlabRules {
  import opened Bytes
  import opened Bits
  import opened Slab
  import opened SlabInvariant
  import opened SlabSteps
  import opened SlabRuns

  /** The classes are 8, 16, 32 and so on up to 4096; a layout is served by the least one that covers its size and its
      alignment, and by none exactly when either is beyond 4096. */
  lemma ClassIs(l: Layout, i: nat)
    requires i < 10
    ensures ClassOf(l) <= i <==> l.size <= 8 * Pow2(i) && l.align <= 8 * Pow2(i)
    ensures ClassOf(l) <= 10 && (ClassOf(l) == 10 <==> l.size > 4096 || l.align > 4096)
    ensures SIZE_CLASSES[i] == 8 * Pow2(i) && CHUNK_SIZE == 4096
  {
    ClassFacts(i);
    ClassLeast(l, i);
  }

  /** Before initialization nothing is handed out and nothing is taken back. */
  lemma NotInitialized(s: SlabState, ptr: nat, l: Layout)
    requires !s.initialized && 1 <= l.align <= WORD
    ensures Alloc(s, l) == (s, 0) && Dealloc(s, ptr, l) == s
  {
  }

  /** Null and large blocks are not taken back. */
  lemma NotRecycled(s: SlabState, ptr: nat, l: Layout)
    requires ptr == 0 || l.size > 4096 || l.align > 4096
    ensures Dealloc(s, ptr, l) == s
  {
    ClassIs(l, 9);
  }

  /** A large block starts at the first multiple of its alignment from the bump pointer on, takes exactly its size, and
      is refused exactly when it ends beyond the heap. */
  lemma LargeAnswer(s: SlabState, l: Layout, start: nat)
    requires s.initialized && ValidLayout(l) && (l.size > 4096 || l.align > 4096)
    requires s.bump + l.align - 1 < WORD && s.heapEnd < WORD && s.bump > 0
    requires s.bump <= start < s.bump + l.align && IsMultiple(start, l.align)
    ensures 1 <= l.align < WORD
    ensures var (s', p) := Alloc(s, l);
            if start + l.size > s.heapEnd then s' == s && p == 0
            else
              && p == start && s'.bump == start + l.size && s'.heads == s.heads && |s'.mem| == |s.mem|
              && forall k :: 0 <= k < |s.mem| && start + l.size <= |s.mem| ==>
                   s'.mem[k] == if start <= k < start + l.size then 0 else s.mem[k]
  {
    LayoutFacts(l);
    ClassIs(l, 9);
    var k: nat :| AlignBits(k, l.align);
    AlignUpSpec(s.bump, k);
    MultiplesApart(start, AlignUp(s.bump, l.align), l.align);
    MultiplesApart(AlignUp(s.bump, l.align), start, l.align);
  }

  /** A block given back is the head of its class's list, and its first eight bytes hold the old head, least significant
      byte first. */
  lemma GivenBack(s: SlabState, ptr: nat, l: Layout)
    requires s.initialized && ptr > 0 && l.size <= 4096 && l.align <= 4096 && ptr + 8 <= |s.mem|
    requires s.heads[if ClassOf(l) < 10 then ClassOf(l) else 0] < WORD
    ensures ClassOf(l) < 10
    ensures var s' := Dealloc(s, ptr, l);
            && s'.heads == s.heads[ClassOf(l) := ptr] && s'.bump == s.bump && |s'.mem| == |s.mem|
            && (forall k :: 0 <= k < |s.mem| && !(ptr <= k < ptr + 8) ==> s'.mem[k] == s.mem[k])
            && Le32(s'.mem, ptr) + 0x1_0000_0000 * Le32(s'.mem, ptr + 4) == s.heads[ClassOf(l)]
  {
    ClassIs(l, 9);
    SetThenGet(s.mem, ptr, s.heads[ClassOf(l)]);
  }

  lemma FirstOfBook(book: Book, l: Layout)
    requires BookShape(book) && 1 <= l.align <= WORD && ClassOf(l) < 10 && book.ledger.lists[ClassOf(l)] == []
    requires 0 < book.bump && RoundUp(book.bump, 4096) + 4096 <= book.end
    ensures BookAlloc(book, l).1 == RoundUp(book.bump, 4096) + 4096 - SIZE_CLASSES[ClassOf(l)]
  {
    var i, chunk := ClassOf(l), RoundUp(book.bump, 4096);
    ClassFacts(i);
    RoundUpSpec(book.bump, 4096);
    CarvedOrder(chunk, SizeOf(i), PerChunk(i), [], 0);
    TimesAdd(PerChunk(i) - 1, 1, SizeOf(i));
    hide Carved, Times, RoundUp, SizeOf, PerChunk, IsMultiple;
    assert BookRefill(book, i).0.ledger.lists[i] == Carved(chunk, SizeOf(i), PerChunk(i), []);
  }

  /** The first small request of all is served by the last block of the first chunk. */
  lemma FirstBlock(mem: seq<byte>, start: nat, size: nat, l: Layout)
    requires GoodRegion(mem, start, size) && ValidLayout(l) && l.size <= 4096 && l.align <= 4096
    requires RoundUp(start, 4096) + 4096 <= start + size
    ensures 1 <= l.align < WORD && ClassOf(l) < 10
    ensures Alloc(Started(mem, start, size), l).1 == RoundUp(start, 4096) + 4096 - SIZE_CLASSES[ClassOf(l)]
  {
    ClassIs(l, 9);
    LayoutFacts(l);
    EmptyLedger(start, size);
    StartMatches(mem, start, size);
    hide Alloc, Matches, RoundUp, Started, ClassOf;
    AllocStep(Started(mem, start, size), EmptyBook(start, size), l);
    FirstOfBook(EmptyBook(start, size), l);
  }
}

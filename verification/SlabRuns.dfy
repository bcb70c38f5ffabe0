/** Whole runs of the allocator: any calls and any client writes, from initialization on. */
module SlabRuns {
  import opened Wrappers
  import opened Bytes
  import opened Bits
  import opened Slab
  import opened SlabInvariant
  import opened SlabSteps

  // ---------- what a pointer is good for ----------

  /** The class of a layout is the least one that covers its size and its alignment; none when either is beyond 4096. */
  lemma ClassLeast(l: Layout, i: nat)
    requires i < CLASSES
    ensures ClassOf(l) <= i <==> l.size <= SizeOf(i) && l.align <= SizeOf(i)
    ensures ClassOf(l) == CLASSES <==> l.size > CHUNK_SIZE || l.align > CHUNK_SIZE
  {
    var need, r := Max(l.size, l.align), ClassOf(l);
    ClassFacts(i);
    if r < CLASSES { ClassFacts(r); }
    SizesAscend(i, CLASSES - 1);
    if r < CLASSES {
      if r <= i { SizesAscend(r, i); }
      SizesAscend(r, CLASSES - 1);
    }
  }

  lemma SizesAscend(i: nat, j: nat)
    requires i <= j < CLASSES
    ensures SizeOf(i) <= SizeOf(j)
  {
    ClassFacts(i);
    ClassFacts(j);
  }

  /** A multiple of the class size is a multiple of every alignment the class serves. */
  lemma AlignedInClass(b: nat, l: Layout, i: nat)
    requires ValidLayout(l) && i < CLASSES && l.align <= SizeOf(i) && IsMultiple(b, SizeOf(i))
    ensures IsMultiple(b, l.align)
  {
    var k: nat :| AlignBits(k, l.align);
    ClassFacts(i);
    if k > i + 3 { PowMono(i + 3, k); }
    PowDivides(k, i + 3);
    MultipleTrans(b, SizeOf(i), l.align);
  }

  /** A block that is in use covers a request of `n` bytes at `p`. */
  ghost predicate Serves(ledger: Ledger, p: nat, l: Layout)
    requires Shape(ledger)
  {
    var i := ClassOf(l);
    if i < CLASSES then p in ledger.live[i] && l.size <= SizeOf(i) else (p, l.size) in ledger.larges
  }

  lemma SmallPointer(ledger: Ledger, s: SlabState, l: Layout)
    requires Owned(s, ledger) && ValidLayout(l) && ClassOf(l) < CLASSES && ledger.lists[ClassOf(l)] != []
    ensures var p := ledger.lists[ClassOf(l)][0];
            IsMultiple(p, l.align) && Serves(Taken(ledger, ClassOf(l)), p, l)
              && InUse(Taken(ledger, ClassOf(l)), p, l.size)
  {
    var i := ClassOf(l);
    ClassLeast(l, i);
    assert ledger.lists[i][0] in ledger.lists[i];
    assert IsBlock(ledger, i, ledger.lists[i][0]);
    AlignedInClass(ledger.lists[i][0], l, i);
    assert ledger.lists[i][0] in Taken(ledger, i).live[i];
  }

  lemma LargePointer(s: SlabState, book: Book, l: Layout)
    requires Matches(s, book) && TameLayout(book, l) && ClassOf(l) == CLASSES
    ensures 1 <= l.align < WORD
    ensures var p, ledger' := Alloc(s, l).1, BookAlloc(book, l).0.ledger;
            p != 0 ==> IsMultiple(p, l.align) && Serves(ledger', p, l) && InUse(ledger', p, l.size)
  {
    var k: nat :| AlignBits(k, l.align);
    BumpStep(s, book, l, k);
    if Alloc(s, l).1 != 0 {
      assert BookAlloc(book, l).0.ledger.larges[|book.ledger.larges|] == (Alloc(s, l).1, l.size);
    }
  }

  /** Every pointer handed out is a multiple of its alignment, and a block in use of at least the size starts there. */
  lemma PointerPromise(s: SlabState, book: Book, l: Layout)
    requires Matches(s, book) && TameLayout(book, l)
    ensures 1 <= l.align < WORD
    ensures var p, ledger' := Alloc(s, l).1, BookAlloc(book, l).0.ledger;
            p != 0 ==> IsMultiple(p, l.align) && Serves(ledger', p, l) && InUse(ledger', p, l.size)
  {
    var i := ClassOf(l);
    if i == CLASSES {
      LargePointer(s, book, l);
    } else {
      AllocStep(s, book, l);
      if book.ledger.lists[i] != [] {
        SmallPointer(book.ledger, s, l);
      } else {
        RefillOwned(s, book, i);
        if BookRefill(book, i).1 {
          RefillNonEmpty(s, book, i);
          SmallPointer(BookRefill(book, i).0.ledger, Refill(s, i).0, l);
        }
      }
    }
  }

  // ---------- bytes ----------

  lemma PushBytes(s: SlabState, i: nat, b: nat, k: nat)
    requires i < CLASSES && k < |s.mem| && (k < b || b + 8 <= k)
    ensures Push(s, i, b).mem[k] == s.mem[k]
  {
  }

  lemma {:induction false} CarveBytes(s: SlabState, i: nat, size: nat, off: nat, end: nat, k: nat)
    requires i < CLASSES && size > 0 && k < |s.mem| && k < off
    ensures |Carve(s, i, size, off, end).mem| == |s.mem| && Carve(s, i, size, off, end).mem[k] == s.mem[k]
    decreases end - off
  {
    if off + size <= end {
      PushBytes(s, i, off, k);
      CarveBytes(Push(s, i, off), i, size, off + size, end, k);
    }
  }

  lemma BumpBytes(s: SlabState, l: Layout, k: nat)
    requires 1 <= l.align <= WORD && k < |s.mem|
    requires s.bump <= AlignUp(s.bump, l.align) && k < s.bump
    ensures var s' := AllocFromBump(s, l).0; |s'.mem| == |s.mem| && s'.mem[k] == s.mem[k]
  {
  }

  lemma RefillBytes(s: SlabState, i: nat, k: nat)
    requires s.bump + CHUNK_SIZE <= WORD && i < CLASSES && k < s.bump && k < |s.mem|
    ensures |Refill(s, i).0.mem| == |s.mem| && Refill(s, i).0.mem[k] == s.mem[k]
  {
    ChunkStart(s.bump);
    BumpBytes(s, CHUNK_LAYOUT, k);
    var (s1, chunk) := AllocFromBump(s, CHUNK_LAYOUT);
    if chunk != 0 { CarveBytes(s1, i, SIZE_CLASSES[i], chunk, chunk + CHUNK_SIZE, k); }
  }

  /** Where a chunk goes: at the first multiple of 4096 from the bump pointer on. */
  lemma ChunkStart(x: nat)
    requires x + CHUNK_SIZE <= WORD
    ensures var r := AlignUp(x, CHUNK_SIZE);
            x <= r < x + CHUNK_SIZE && IsMultiple(r, CHUNK_SIZE) && (IsMultiple(x, CHUNK_SIZE) ==> r == x)
  {
    assert Pow2(12) == CHUNK_SIZE by { ClassFacts(9); }
    AlignUpSpec(x, 12);
  }

  lemma SmallBytes(s: SlabState, i: nat, k: nat)
    requires s.bump + CHUNK_SIZE <= WORD && i < CLASSES && k < s.bump && k < |s.mem|
    ensures |AllocSmall(s, i).0.mem| == |s.mem| && AllocSmall(s, i).0.mem[k] == s.mem[k]
  {
    RefillBytes(s, i, k);
  }

  lemma LargeBytes(s: SlabState, l: Layout, k: nat)
    requires ValidLayout(l) && s.bump + l.align - 1 < WORD && k < s.bump && k < |s.mem|
    ensures 1 <= l.align < WORD
    ensures |AllocFromBump(s, l).0.mem| == |s.mem| && AllocFromBump(s, l).0.mem[k] == s.mem[k]
  {
    LayoutFacts(l);
    var e: nat :| AlignBits(e, l.align);
    AlignUpSpec(s.bump, e);
    BumpBytes(s, l, k);
  }

  /** An allocation writes beyond the used heap only, so it leaves every byte of every block as it is. */
  lemma AllocBytes(s: SlabState, book: Book, l: Layout, k: nat)
    requires Matches(s, book) && TameLayout(book, l) && k < s.bump
    ensures 1 <= l.align < WORD
    ensures |Alloc(s, l).0.mem| == |s.mem| && Alloc(s, l).0.mem[k] == s.mem[k]
  {
    LayoutFacts(l);
    if ClassOf(l) < CLASSES { SmallBytes(s, ClassOf(l), k); } else { LargeBytes(s, l, k); }
  }

  /** A large block is handed out zeroed. */
  lemma LargeIsZero(s: SlabState, book: Book, l: Layout, k: nat)
    requires Matches(s, book) && TameLayout(book, l) && ClassOf(l) == CLASSES && k < l.size
    ensures 1 <= l.align < WORD
    ensures var (s', p) := Alloc(s, l); p != 0 ==> p + k < |s'.mem| && s'.mem[p + k] == 0
  {
    LayoutFacts(l);
  }

  /** A deallocation writes into the block given back only: blocks still in use keep their bytes. */
  lemma DeallocBytes(s: SlabState, book: Book, ptr: nat, l: Layout, a: nat, n: nat, k: nat)
    requires Matches(s, book) && TamePointer(book, ptr, l) && InUse(BookDealloc(book, ptr, l).ledger, a, n)
             && a <= k < a + n
    ensures k < |s.mem| && |Dealloc(s, ptr, l).mem| == |s.mem| && Dealloc(s, ptr, l).mem[k] == s.mem[k]
  {
    var i := ClassOf(l);
    var book' := BookDealloc(book, ptr, l);
    DeallocStep(s, book, ptr, l);
    UseIsInside(Dealloc(s, ptr, l), book'.ledger, a, n);
    if ptr != 0 && i < CLASSES {
      assert ptr in book'.ledger.lists[i];
      UseIsApart(Dealloc(s, ptr, l), book'.ledger, a, n, i, ptr);
      PushBytes(s, i, ptr, k);
    }
  }

  lemma UseIsInside(s: SlabState, ledger: Ledger, a: nat, n: nat)
    requires Owned(s, ledger) && InUse(ledger, a, n)
    ensures s.heapStart <= a && a + n <= s.bump
  {
    if i: nat, b: nat :| i < CLASSES && b in ledger.live[i] && b <= a && a + n <= b + SizeOf(i) {
      assert IsBlock(ledger, i, b) && Inside(s, b, SizeOf(i));
    } else {
      var k: nat :| k < |ledger.larges| && ledger.larges[k].0 <= a && a + n <= ledger.larges[k].0 + ledger.larges[k].1;
      assert Inside(s, ledger.larges[k].0, ledger.larges[k].1);
    }
  }

  // ---------- last in, first out ----------

  /** A block given back is the one the next request of its class gets, and then the free list is as it was. */
  lemma FreedIsNext(s: SlabState, book: Book, ptr: nat, l: Layout, m: Layout)
    requires Matches(s, book) && TamePointer(book, ptr, l) && ptr != 0 && ClassOf(l) == ClassOf(m) < CLASSES
             && ValidLayout(m)
    ensures 1 <= m.align < WORD
    ensures var (s', p) := Alloc(Dealloc(s, ptr, l), m);
            p == ptr && s'.heads == s.heads && s'.bump == s.bump
  {
    var i := ClassOf(l);
    var s1 := Dealloc(s, ptr, l);
    LayoutFacts(m);
    HeadFacts(s, book.ledger, i);
    assert IsBlock(book.ledger, i, ptr);
    assert ListAt(s.mem, s.heads[i], book.ledger.lists[i]);
    SetThenGet(s.mem, ptr, s.heads[i]);
    assert s.heads[i := ptr][i := s.heads[i]] == s.heads;
  }

  // ---------- fresh blocks ----------

  lemma FreshSmall(s: SlabState, book: Book, i: nat, a: nat, n: nat)
    requires Agrees(s, book) && i < CLASSES && book.ledger.lists[i] != [] && InUse(book.ledger, a, n)
    ensures Apart(BookPop(book, i).1, SizeOf(i), a, n)
  {
    assert book.ledger.lists[i][0] in book.ledger.lists[i];
    UseIsApart(s, book.ledger, a, n, i, book.ledger.lists[i][0]);
  }

  lemma RefillKeepsUse(book: Book, i: nat, a: nat, n: nat)
    requires BookShape(book) && i < CLASSES && InUse(book.ledger, a, n)
    ensures InUse(BookRefill(book, i).0.ledger, a, n)
  {
  }

  lemma FreshLarge(s: SlabState, ledger: Ledger, p: nat, size: nat, a: nat, n: nat)
    requires Shape(ledger) && Unowned(s, ledger, p, size) && InUse(ledger, a, n)
    ensures Apart(p, size, a, n)
  {
    if i: nat, b: nat :| i < CLASSES && b in ledger.live[i] && b <= a && a + n <= b + SizeOf(i) {
      assert IsBlock(ledger, i, b);
    } else {
      var k: nat :| k < |ledger.larges| && ledger.larges[k].0 <= a && a + n <= ledger.larges[k].0 + ledger.larges[k].1;
    }
  }

  /** A block handed out overlaps nothing that was in use. */
  lemma FreshBlock(s: SlabState, book: Book, l: Layout, a: nat, n: nat)
    requires Matches(s, book) && TameLayout(book, l) && InUse(book.ledger, a, n)
    ensures 1 <= l.align < WORD
    ensures var p := Alloc(s, l).1; p != 0 ==> Apart(p, l.size, a, n)
  {
    AllocStep(s, book, l);
    var i := ClassOf(l);
    if i < CLASSES {
      ClassLeast(l, i);
      if book.ledger.lists[i] != [] {
        FreshSmall(s, book, i, a, n);
      } else {
        RefillOwned(s, book, i);
        if BookRefill(book, i).1 {
          RefillNonEmpty(s, book, i);
          RefillKeepsUse(book, i, a, n);
          FreshSmall(Refill(s, i).0, BookRefill(book, i).0, i, a, n);
        }
      }
    } else {
      var k: nat :| AlignBits(k, l.align);
      BumpStep(s, book, l, k);
      if BookBump(book, l).1 != 0 { FreshLarge(AllocFromBump(s, l).0, book.ledger, BookBump(book, l).1, l.size, a, n); }
    }
  }

  // ---------- runs ----------

  /** A call, or a write by whoever holds a block. */
  datatype Op = Request(l: Layout) | Release(ptr: nat, l: Layout) | Write(a: nat, bytes: seq<byte>)

  ghost predicate TameOp(book: Book, op: Op)
    requires BookShape(book)
  {
    match op
    case Request(l) => TameLayout(book, l)
    case Release(ptr, l) => TamePointer(book, ptr, l)
    case Write(a, bytes) => InUse(book.ledger, a, |bytes|)
  }

  predicate Aligned(op: Op) {
    op.Request? ==> 1 <= op.l.align <= WORD
  }

  /** The state after a step, and the pointer it answers with (0 when there is none). */
  function Step(s: SlabState, op: Op): (SlabState, nat)
    requires Aligned(op)
  {
    match op
    case Request(l) => Alloc(s, l)
    case Release(ptr, l) => (Dealloc(s, ptr, l), 0)
    case Write(a, bytes) => (Poke(s, a, bytes), 0)
  }

  /** The same step on the book, which does not see writes. */
  ghost function BookStep(book: Book, op: Op): (r: (Book, nat))
    requires BookShape(book) && Aligned(op)
    ensures BookShape(r.0) && r.0.start == book.start && r.0.end == book.end
  {
    match op
    case Request(l) => BookAlloc(book, l)
    case Release(ptr, l) => (BookDealloc(book, ptr, l), 0)
    case Write(a, bytes) => (book, 0)
  }

  /** Every step of the run is one the code allows its callers. */
  ghost predicate TameRun(book: Book, ops: seq<Op>)
    requires BookShape(book)
    decreases |ops|
  {
    ops == [] || (Aligned(ops[0]) && TameOp(book, ops[0]) && TameRun(BookStep(book, ops[0]).0, ops[1..]))
  }

  /** The final state of a run and its answers. */
  function Run(s: SlabState, ops: seq<Op>): (SlabState, seq<nat>)
    requires forall k :: 0 <= k < |ops| ==> Aligned(ops[k])
    decreases |ops|
  {
    if ops == [] then (s, [])
    else
      var (s1, p) := Step(s, ops[0]);
      var (s2, ps) := Run(s1, ops[1..]);
      (s2, [p] + ps)
  }

  ghost function BookRun(book: Book, ops: seq<Op>): (r: (Book, seq<nat>))
    requires BookShape(book) && forall k :: 0 <= k < |ops| ==> Aligned(ops[k])
    ensures BookShape(r.0) && r.0.start == book.start && r.0.end == book.end
    decreases |ops|
  {
    if ops == [] then (book, [])
    else
      var (book1, p) := BookStep(book, ops[0]);
      var (book2, ps) := BookRun(book1, ops[1..]);
      (book2, [p] + ps)
  }

  lemma {:induction false} TameIsAligned(book: Book, ops: seq<Op>)
    requires BookShape(book) && TameRun(book, ops)
    ensures forall k :: 0 <= k < |ops| ==> Aligned(ops[k])
    decreases |ops|
  {
    if ops != [] {
      TameIsAligned(BookStep(book, ops[0]).0, ops[1..]);
      assert forall k :: 1 <= k < |ops| ==> ops[k] == ops[1..][k - 1];
    }
  }

  lemma StepMatches(s: SlabState, book: Book, op: Op)
    requires Matches(s, book) && Aligned(op) && TameOp(book, op)
    ensures Matches(Step(s, op).0, BookStep(book, op).0) && Step(s, op).1 == BookStep(book, op).1
  {
    match op
    case Request(l) => AllocStep(s, book, l);
    case Release(ptr, l) => DeallocStep(s, book, ptr, l);
    case Write(a, bytes) => PokeOwned(s, book.ledger, a, bytes);
  }

  /** Whatever the clients write, the allocator answers as the memory-less stacks do, and its invariant holds at the
      end. */
  lemma {:induction false} RunMatches(s: SlabState, book: Book, ops: seq<Op>)
    requires Matches(s, book) && TameRun(book, ops)
    ensures forall k :: 0 <= k < |ops| ==> Aligned(ops[k])
    ensures Matches(Run(s, ops).0, BookRun(book, ops).0) && Run(s, ops).1 == BookRun(book, ops).1
    decreases |ops|
  {
    TameIsAligned(book, ops);
    if ops != [] {
      StepMatches(s, book, ops[0]);
      RunMatches(Step(s, ops[0]).0, BookStep(book, ops[0]).0, ops[1..]);
    }
  }

  // ---------- from initialization on ----------

  /** A heap region the code accepts: not at address 0, inside memory, and away from the top of the address space. */
  ghost predicate GoodRegion(mem: seq<byte>, start: nat, size: nat) {
    0 < start && start + size <= |mem| <= WORD && start + size + CHUNK_SIZE <= WORD
  }

  const NO_LISTS: seq<seq<nat>> := [[], [], [], [], [], [], [], [], [], []]
  const NO_BLOCKS: seq<set<nat>> := [{}, {}, {}, {}, {}, {}, {}, {}, {}, {}]
  const NONE: seq<nat> := [0, 0, 0, 0, 0, 0, 0, 0, 0, 0]

  ghost function EmptyBook(start: nat, size: nat): (book: Book)
    ensures BookShape(book)
  {
    Book(start, start + size, start, Ledger(NO_LISTS, NO_BLOCKS, NONE, NONE, []))
  }

  function Started(mem: seq<byte>, start: nat, size: nat): SlabState {
    Init(New(mem), start, size)
  }

  lemma EmptyLedger(start: nat, size: nat)
    ensures var ledger := EmptyBook(start, size).ledger;
            && Shape(ledger) && ledger.larges == []
            && (forall i: nat :: i < CLASSES ==>
                  ledger.lists[i] == [] && ledger.live[i] == {} && ledger.chunks[i] == 0 && ledger.peak[i] == 0)
            && (forall i: nat, b: nat :: !IsBlock(ledger, i, b))
  {
  }

  lemma EmptyIsFine(s: SlabState, ledger: Ledger)
    requires Shape(ledger) && ledger.larges == [] && HeapOk(s)
    requires forall i: nat :: i < CLASSES ==>
               && s.heads[i] == 0 && ledger.lists[i] == [] && ledger.live[i] == {}
               && ledger.chunks[i] == 0 && ledger.peak[i] == 0
    requires forall i: nat, b: nat :: !IsBlock(ledger, i, b)
    ensures Owned(s, ledger) && Counted(ledger)
  {
  }

  lemma StartMatches(mem: seq<byte>, start: nat, size: nat)
    requires GoodRegion(mem, start, size)
    ensures Matches(Started(mem, start, size), EmptyBook(start, size))
  {
    EmptyLedger(start, size);
    EmptyIsFine(Started(mem, start, size), EmptyBook(start, size).ledger);
  }

  /** The safety of a state: stated out. */
  ghost predicate Safe(s: SlabState, ledger: Ledger)
    requires Shape(ledger)
  {
    // every free list is finite and acyclic, and shares no block with the blocks in use
    && (forall i :: 0 <= i < CLASSES ==>
          && ListAt(s.mem, s.heads[i], ledger.lists[i]) && Distinct(ledger.lists[i])
          && forall b :: b in ledger.lists[i] ==> b !in ledger.live[i])
    // every block, free or live, lies in the used part of the heap, below the bump pointer
    && (forall i, b :: IsBlock(ledger, i, b) ==> Inside(s, b, SizeOf(i))) && s.bump <= s.heapEnd
    // every large block does too
    && (forall k :: 0 <= k < |ledger.larges| ==> Inside(s, ledger.larges[k].0, ledger.larges[k].1))
    // no two blocks overlap
    && (forall i, b, j, c :: IsBlock(ledger, i, b) && IsBlock(ledger, j, c) && (i != j || b != c) ==>
          Apart(b, SizeOf(i), c, SizeOf(j)))
    && (forall k, i, b :: 0 <= k < |ledger.larges| && IsBlock(ledger, i, b) ==>
          Apart(ledger.larges[k].0, ledger.larges[k].1, b, SizeOf(i)))
    && (forall k, m :: 0 <= k < m < |ledger.larges| ==>
          Apart(ledger.larges[k].0, ledger.larges[k].1, ledger.larges[m].0, ledger.larges[m].1))
    // free and live blocks are all the blocks ever carved, in as many chunks as the peak needed
    && (forall i :: 0 <= i < CLASSES ==> |ledger.lists[i]| + |ledger.live[i]| == ledger.chunks[i] * PerChunk(i))
    && (forall i :: 0 <= i < CLASSES ==> ledger.chunks[i] == ChunksFor(ledger.peak[i], i))
  }

  /** `ceil(peak / (4096 / S))`. */
  function ChunksFor(peak: nat, i: nat): nat
    requires i < CLASSES
  {
    (peak + PerChunk(i) - 1) / PerChunk(i)
  }

  lemma CountIsCeil(ledger: Ledger, i: nat)
    requires Shape(ledger) && i < CLASSES && CountOk(ledger, i)
    ensures ledger.chunks[i] == ChunksFor(ledger.peak[i], i)
  {
    ClassFacts(i);
    CeilUnique(ledger.peak[i], PerChunk(i), ledger.chunks[i]);
  }

  lemma CeilUnique(p: nat, n: nat, c: nat)
    requires n >= 1 && p <= Times(c, n) && (c > 0 ==> p > Times(c - 1, n))
    ensures c == (p + n - 1) / n
  {
    if c > 0 { TimesAdd(c - 1, 1, n); }
    QuotientUnique(p + n - 1, n, c);
  }

  lemma QuotientUnique(x: nat, n: nat, c: nat)
    requires n >= 1 && Times(c, n) <= x < Times(c, n) + n
    ensures c == x / n
  {
    var q := x / n;
    assert Times(q, n) <= x < Times(q, n) + n;
    if c < q {
      TimesMono(c + 1, q, n);
      TimesAdd(c, 1, n);
    } else if q < c {
      TimesMono(q + 1, c, n);
      TimesAdd(q, 1, n);
    }
  }

  lemma InvIsSafe(s: SlabState, book: Book)
    requires Matches(s, book)
    ensures Safe(s, book.ledger)
  {
    forall i | 0 <= i < CLASSES
      ensures |book.ledger.lists[i]| + |book.ledger.live[i]| == book.ledger.chunks[i] * PerChunk(i)
      ensures book.ledger.chunks[i] == ChunksFor(book.ledger.peak[i], i)
    {
      assert CountOk(book.ledger, i);
      CountIsCeil(book.ledger, i);
    }
  }

  /** Every run of calls and client writes, from any memory and any accepted heap, ends in a safe state. */
  lemma EveryRunIsSafe(mem: seq<byte>, start: nat, size: nat, ops: seq<Op>)
    requires GoodRegion(mem, start, size) && TameRun(EmptyBook(start, size), ops)
    ensures forall k :: 0 <= k < |ops| ==> Aligned(ops[k])
    ensures var (s, answers) := Run(Started(mem, start, size), ops);
            var (book, expected) := BookRun(EmptyBook(start, size), ops);
            Safe(s, book.ledger) && answers == expected && s.heapStart == start && s.heapEnd == start + size
  {
    StartMatches(mem, start, size);
    RunMatches(Started(mem, start, size), EmptyBook(start, size), ops);
    InvIsSafe(Run(Started(mem, start, size), ops).0, BookRun(EmptyBook(start, size), ops).0);
  }
}

/** What one call does: every operation of the allocator against a book that knows the blocks but not the memory. */
module SlabSteps {
  import opened Bytes
  import opened Bits
  import opened Slab
  import opened SlabInvariant

  // ---------- the book ----------

  /** The allocator without its memory: each class is a stack of blocks, refilled from a bump pointer. */
  datatype Book = Book(start: nat, end: nat, bump: nat, ledger: Ledger)

  /** The book's blocks own the heap as the state has it. */
  ghost predicate Agrees(s: SlabState, book: Book) {
    Owned(s, book.ledger) && book.start == s.heapStart && book.end == s.heapEnd && book.bump == s.bump
  }

  ghost predicate Matches(s: SlabState, book: Book) {
    Agrees(s, book) && Counted(book.ledger)
  }

  ghost predicate BookShape(book: Book) { Shape(book.ledger) }

  /** The first free block of class `i` becomes live. */
  ghost function Taken(ledger: Ledger, i: nat): (r: Ledger)
    requires Shape(ledger) && i < CLASSES && ledger.lists[i] != []
    ensures Shape(r)
  {
    var live := ledger.live[i] + {ledger.lists[i][0]};
    ledger.(lists := ledger.lists[i := ledger.lists[i][1..]], live := ledger.live[i := live],
            peak := ledger.peak[i := Max(ledger.peak[i], |live|)])
  }

  /** The live block `b` becomes the first free one. */
  ghost function Returned(ledger: Ledger, i: nat, b: nat): (r: Ledger)
    requires Shape(ledger) && i < CLASSES
    ensures Shape(r)
  {
    Freed(ledger.(live := ledger.live[i := ledger.live[i] - {b}]), i, b)
  }

  /** The chunk at `chunk` becomes free blocks of class `i`. */
  ghost function Refilled(ledger: Ledger, i: nat, chunk: nat): (r: Ledger)
    requires Shape(ledger) && i < CLASSES
    ensures Shape(r)
  {
    CarvedLedger(ledger, i, chunk, PerChunk(i)).(chunks := ledger.chunks[i := ledger.chunks[i] + 1])
  }

  ghost function Granted(ledger: Ledger, start: nat, size: nat): (r: Ledger)
    requires Shape(ledger)
    ensures Shape(r)
  {
    ledger.(larges := ledger.larges + [(start, size)])
  }

  /** The first multiple of `a` from `x` on, by division. */
  function RoundUp(x: nat, a: nat): nat
    requires a >= 1
  {
    (x + a - 1) / a * a
  }

  lemma RoundUpSpec(x: nat, a: nat)
    requires a >= 1
    ensures x <= RoundUp(x, a) < x + a && IsMultiple(RoundUp(x, a), a)
  {
    var q := (x + a - 1) / a;
    assert Times(q, a) == RoundUp(x, a);
  }

  /** Masking and division round up alike. */
  lemma AlignIsRound(x: nat, k: nat)
    requires k < WORD_BITS && x + Pow2(k) - 1 < WORD
    ensures Pow2(k) < WORD && AlignUp(x, Pow2(k)) == RoundUp(x, Pow2(k))
  {
    AlignUpSpec(x, k);
    RoundUpSpec(x, Pow2(k));
    MultiplesApart(AlignUp(x, Pow2(k)), RoundUp(x, Pow2(k)), Pow2(k));
    MultiplesApart(RoundUp(x, Pow2(k)), AlignUp(x, Pow2(k)), Pow2(k));
  }

  /** A stretch cut off at the bump pointer; 0 when it does not fit. */
  ghost function BookBump(book: Book, l: Layout): (Book, nat)
    requires 1 <= l.align <= WORD
  {
    var start := RoundUp(book.bump, l.align);
    if start + l.size > book.end then (book, 0) else (book.(bump := start + l.size), start)
  }

  ghost function BookRefill(book: Book, i: nat): (r: (Book, bool))
    requires BookShape(book) && i < CLASSES
    ensures BookShape(r.0)
  {
    var (book1, chunk) := BookBump(book, CHUNK_LAYOUT);
    if chunk == 0 then (book, false) else (book1.(ledger := Refilled(book.ledger, i, chunk)), true)
  }

  ghost function BookPop(book: Book, i: nat): (r: (Book, nat))
    requires BookShape(book) && i < CLASSES
    ensures BookShape(r.0)
  {
    if book.ledger.lists[i] == [] then (book, 0) else (book.(ledger := Taken(book.ledger, i)), book.ledger.lists[i][0])
  }

  ghost function BookAlloc(book: Book, l: Layout): (r: (Book, nat))
    requires BookShape(book) && 1 <= l.align <= WORD
    ensures BookShape(r.0) && r.0.start == book.start && r.0.end == book.end
  {
    var i := ClassOf(l);
    if i < CLASSES then
      if book.ledger.lists[i] != [] then BookPop(book, i)
      else
        var (book1, ok) := BookRefill(book, i);
        if ok then BookPop(book1, i) else (book, 0)
    else
      var (book1, p) := BookBump(book, l);
      if p == 0 then (book, 0) else (book1.(ledger := Granted(book.ledger, p, l.size)), p)
  }

  ghost function BookDealloc(book: Book, ptr: nat, l: Layout): (r: Book)
    requires BookShape(book)
    ensures BookShape(r) && r.start == book.start && r.end == book.end
  {
    if ptr != 0 && ClassOf(l) < CLASSES then book.(ledger := Returned(book.ledger, ClassOf(l), ptr)) else book
  }

  // ---------- cutting from the bump pointer ----------

  /** Zeroing beyond the bump pointer and moving it disturbs nothing, and leaves an unowned stretch. */
  lemma BumpKeeps(s: SlabState, ledger: Ledger, start: nat, size: nat)
    requires Owned(s, ledger) && s.bump <= start && start + size <= s.heapEnd
    ensures var s' := s.(bump := start + size, mem := ZeroFill(s.mem, start, size));
            Owned(s', ledger) && Unowned(s', ledger, start, size)
  {
    var mem' := ZeroFill(s.mem, start, size);
    forall i, b | 0 <= i < CLASSES && b in ledger.lists[i] ensures Word(mem', b) == Word(s.mem, b) {
      assert IsBlock(ledger, i, b) && Inside(s, b, SizeOf(i));
      WordFrame(s.mem, mem', b);
    }
    ListsFrame(s, ledger, mem');
  }

  /** The two bump allocators agree, and the block is aligned, inside the heap and nobody's. */
  lemma BumpStep(s: SlabState, book: Book, l: Layout, k: nat)
    requires Agrees(s, book)
    requires k < WORD_BITS && Pow2(k) == l.align && s.bump + l.align - 1 < WORD
    ensures l.align < WORD
    ensures var (s', p) := AllocFromBump(s, l);
            var (book', q) := BookBump(book, l);
            && p == q && Agrees(s', book') && book'.ledger == book.ledger
            && (p == 0 ==> s' == s && book' == book)
            && (p != 0 ==>
                  && p >= s.bump && IsMultiple(p, l.align) && p + l.size == s'.bump
                  && Unowned(s', book.ledger, p, l.size))
  {
    AlignUpSpec(s.bump, k);
    AlignIsRound(s.bump, k);
    var start := AlignUp(s.bump, l.align);
    if start + l.size <= s.heapEnd { BumpKeeps(s, book.ledger, start, l.size); }
  }

  // ---------- popping and returning ----------

  lemma HeadFacts(s: SlabState, ledger: Ledger, i: nat)
    requires Shape(ledger) && ListsOk(s, ledger) && i < CLASSES
    ensures s.heads[i] == 0 <==> ledger.lists[i] == []
    ensures ledger.lists[i] != [] ==> s.heads[i] == ledger.lists[i][0]
  {
    assert ListAt(s.mem, s.heads[i], ledger.lists[i]);
  }

  lemma TakenBlocks(ledger: Ledger, i: nat)
    requires Shape(ledger) && i < CLASSES && ledger.lists[i] != []
    ensures forall j, c :: IsBlock(Taken(ledger, i), j, c) <==> IsBlock(ledger, j, c)
  {
    assert ledger.lists[i] == [ledger.lists[i][0]] + ledger.lists[i][1..];
  }

  lemma TakenLists(s: SlabState, ledger: Ledger, i: nat)
    requires Shape(ledger) && ListsOk(s, ledger) && i < CLASSES && ledger.lists[i] != []
    ensures ListsOk(Pop(s, i).0, Taken(ledger, i))
  {
    HeadFacts(s, ledger, i);
    assert ListAt(s.mem, s.heads[i], ledger.lists[i]);
    var t := ledger.lists[i][1..];
    assert forall k :: 0 <= k < |t| ==> t[k] == ledger.lists[i][k + 1];
  }

  lemma PopOwned(s: SlabState, ledger: Ledger, i: nat)
    requires Owned(s, ledger) && i < CLASSES && ledger.lists[i] != []
    ensures Pop(s, i).1 == ledger.lists[i][0] && Owned(Pop(s, i).0, Taken(ledger, i))
  {
    HeadFacts(s, ledger, i);
    TakenLists(s, ledger, i);
    TakenBlocks(ledger, i);
  }

  /** A live block given back becomes the head of its list. */
  lemma PushBack(s: SlabState, ledger: Ledger, i: nat, b: nat)
    requires Owned(s, ledger) && i < CLASSES && b in ledger.live[i]
    ensures Owned(Push(s, i, b), Returned(ledger, i, b))
  {
    var ledger1 := ledger.(live := ledger.live[i := ledger.live[i] - {b}]);
    assert IsBlock(ledger, i, b);
    assert forall j, c :: IsBlock(ledger1, j, c) ==> IsBlock(ledger, j, c) && (j != i || c != b);
    PushOwned(s, ledger1, i, b);
  }

  // ---------- refilling ----------

  /** Ownership does not depend on the counters. */
  lemma RecountOwned(s: SlabState, ledger: Ledger, ledger': Ledger)
    requires Owned(s, ledger) && Shape(ledger') && ledger'.lists == ledger.lists && ledger'.live == ledger.live
             && ledger'.larges == ledger.larges
    ensures Owned(s, ledger')
  {
    assert forall i, b :: IsBlock(ledger', i, b) <==> IsBlock(ledger, i, b);
  }

  lemma ChunkOwned(s: SlabState, ledger: Ledger, i: nat, chunk: nat)
    requires Owned(s, ledger) && i < CLASSES && Unowned(s, ledger, chunk, CHUNK_SIZE) && IsMultiple(chunk, CHUNK_SIZE)
    ensures Owned(Carve(s, i, SizeOf(i), chunk, chunk + CHUNK_SIZE), Refilled(ledger, i, chunk))
  {
    ClassFacts(i);
    MultipleTrans(chunk, CHUNK_SIZE, SizeOf(i));
    CarveOwned(s, ledger, i, chunk, PerChunk(i));
    RecountOwned(Carve(s, i, SizeOf(i), chunk, chunk + CHUNK_SIZE), CarvedLedger(ledger, i, chunk, PerChunk(i)),
                 Refilled(ledger, i, chunk));
  }

  /** A fresh chunk becomes free blocks of class `i`. */
  lemma ChunkStep(s: SlabState, book: Book, i: nat, chunk: nat)
    requires Agrees(s, book) && i < CLASSES && Unowned(s, book.ledger, chunk, CHUNK_SIZE)
             && IsMultiple(chunk, CHUNK_SIZE)
    ensures Agrees(Carve(s, i, SIZE_CLASSES[i], chunk, chunk + CHUNK_SIZE),
            book.(ledger := Refilled(book.ledger, i, chunk)))
  {
    hide Owned, Unowned, Carve, IsMultiple, SizeOf, Times;
    ClassFacts(i);
    CarveKeepsBump(s, i, SizeOf(i), chunk, chunk + CHUNK_SIZE);
    ChunkOwned(s, book.ledger, i, chunk);
  }

  lemma ChunkBump(s: SlabState, book: Book)
    requires Agrees(s, book)
    ensures var (s', p) := AllocFromBump(s, CHUNK_LAYOUT);
            var (book', q) := BookBump(book, CHUNK_LAYOUT);
            && p == q && Agrees(s', book') && book'.ledger == book.ledger
            && (p == 0 ==> s' == s && book' == book)
            && (p != 0 ==> IsMultiple(p, CHUNK_SIZE) && Unowned(s', book.ledger, p, CHUNK_SIZE))
  {
    assert Pow2(12) == CHUNK_SIZE by { ClassFacts(9); }
    BumpStep(s, book, CHUNK_LAYOUT, 12);
  }

  /** Refilling agrees with the book, and fails exactly when the book's refill does. */
  lemma RefillOwned(s: SlabState, book: Book, i: nat)
    requires Agrees(s, book) && i < CLASSES
    ensures var (s', ok) := Refill(s, i);
            var (book', ok') := BookRefill(book, i);
            ok == ok' && Agrees(s', book') && (!ok ==> s' == s && book' == book)
  {
    hide Agrees, Unowned;
    ChunkBump(s, book);
    var (s1, chunk) := AllocFromBump(s, CHUNK_LAYOUT);
    if chunk != 0 { ChunkStep(s1, BookBump(book, CHUNK_LAYOUT).0, i, chunk); }
  }

  // ---------- counting ----------

  /** Popping keeps the count of a class that was exact. */
  lemma TakenCount(ledger: Ledger, i: nat)
    requires Shape(ledger) && i < CLASSES && ledger.lists[i] != [] && ledger.lists[i][0] !in ledger.live[i]
             && CountOk(ledger, i)
    ensures CountOk(Taken(ledger, i), i)
  {
  }

  lemma ReturnedCount(ledger: Ledger, i: nat, b: nat)
    requires Shape(ledger) && i < CLASSES && b in ledger.live[i] && CountOk(ledger, i)
    ensures CountOk(Returned(ledger, i, b), i)
  {
  }

  lemma RefilledSizes(ledger: Ledger, i: nat, chunk: nat)
    requires Shape(ledger) && i < CLASSES
    ensures |Refilled(ledger, i, chunk).lists[i]| == |ledger.lists[i]| + PerChunk(i)
    ensures Times(ledger.chunks[i] + 1, PerChunk(i)) == Times(ledger.chunks[i], PerChunk(i)) + PerChunk(i)
    ensures PerChunk(i) >= 1
  {
    CarvedLength(chunk, SizeOf(i), PerChunk(i), ledger.lists[i]);
    TimesAdd(ledger.chunks[i], 1, PerChunk(i));
    ClassFacts(i);
  }

  /** A refill of an empty list followed by a pop: one more chunk, and it was needed. */
  lemma RefilledCount(ledger: Ledger, i: nat, chunk: nat)
    requires Shape(ledger) && i < CLASSES && ledger.lists[i] == [] && CountOk(ledger, i)
    requires var refilled := Refilled(ledger, i, chunk);
             refilled.lists[i] != [] && refilled.lists[i][0] !in refilled.live[i]
    ensures CountOk(Taken(Refilled(ledger, i, chunk), i), i)
  {
    RefilledSizes(ledger, i, chunk);
  }

  /** Only class `i` changes its lists and numbers. */
  ghost predicate OnlyClass(ledger: Ledger, ledger': Ledger, i: nat) {
    && Shape(ledger) && Shape(ledger')
    && forall j :: 0 <= j < CLASSES && j != i ==>
                     ledger'.lists[j] == ledger.lists[j] && ledger'.live[j] == ledger.live[j]
                       && ledger'.chunks[j] == ledger.chunks[j] && ledger'.peak[j] == ledger.peak[j]
  }

  lemma CountedFrame(ledger: Ledger, ledger': Ledger, i: nat)
    requires OnlyClass(ledger, ledger', i) && Counted(ledger) && (i < CLASSES ==> CountOk(ledger', i))
    ensures Counted(ledger')
  {
    forall j | 0 <= j < CLASSES ensures CountOk(ledger', j) {
      assert CountOk(ledger, j);
    }
  }

  // ---------- one call ----------

  /** What the code demands of a request: a layout, and no overflow in `align_up` when it goes to the bump pointer. */
  ghost predicate TameLayout(book: Book, l: Layout) {
    ValidLayout(l) && (ClassOf(l) == CLASSES ==> book.bump + l.align - 1 < WORD)
  }

  lemma LayoutFacts(l: Layout)
    requires ValidLayout(l)
    ensures 1 <= l.align < WORD
  {
    var k: nat :| AlignBits(k, l.align);
    WordIsPow();
    PowMono(k, 64);
  }

  lemma PopStep(s: SlabState, book: Book, i: nat)
    requires Matches(s, book) && i < CLASSES && book.ledger.lists[i] != []
    ensures Matches(Pop(s, i).0, BookPop(book, i).0) && Pop(s, i).1 == BookPop(book, i).1 != 0
  {
    var ledger := book.ledger;
    HeadFacts(s, ledger, i);
    PopOwned(s, ledger, i);
    assert ledger.lists[i][0] in ledger.lists[i];
    assert ledger.lists[i][0] !in ledger.live[i] && IsBlock(ledger, i, ledger.lists[i][0]);
    assert CountOk(ledger, i);
    TakenCount(ledger, i);
    CountedFrame(ledger, Taken(ledger, i), i);
  }

  lemma RefillNonEmpty(s: SlabState, book: Book, i: nat)
    requires Agrees(s, book) && i < CLASSES && BookRefill(book, i).1
    ensures var refilled := BookRefill(book, i).0.ledger;
            refilled.lists[i] != [] && refilled.lists[i][0] !in refilled.live[i]
  {
    RefillOwned(s, book, i);
    var refilled := BookRefill(book, i).0.ledger;
    RefilledSizes(book.ledger, i, BookBump(book, CHUNK_LAYOUT).1);
    assert ListsOk(Refill(s, i).0, refilled);
    assert refilled.lists[i][0] in refilled.lists[i];
  }

  lemma RefillPopCounted(book: Book, i: nat)
    requires BookShape(book) && Counted(book.ledger) && i < CLASSES && book.ledger.lists[i] == []
             && BookRefill(book, i).1
    requires var refilled := BookRefill(book, i).0.ledger;
             refilled.lists[i] != [] && refilled.lists[i][0] !in refilled.live[i]
    ensures Counted(BookPop(BookRefill(book, i).0, i).0.ledger)
  {
    var chunk := BookBump(book, CHUNK_LAYOUT).1;
    RefilledCount(book.ledger, i, chunk);
    CountedFrame(book.ledger, Taken(Refilled(book.ledger, i, chunk), i), i);
  }

  /** An empty list is refilled and popped. */
  lemma RefillPopStep(s: SlabState, book: Book, i: nat)
    requires Matches(s, book) && i < CLASSES && book.ledger.lists[i] == [] && BookRefill(book, i).1
    ensures Refill(s, i).1
    ensures var s1, book1 := Refill(s, i).0, BookRefill(book, i).0;
            Matches(Pop(s1, i).0, BookPop(book1, i).0) && Pop(s1, i).1 == BookPop(book1, i).1 != 0
  {
    RefillOwned(s, book, i);
    RefillNonEmpty(s, book, i);
    RefillPopCounted(book, i);
    var s1, book1 := Refill(s, i).0, BookRefill(book, i).0;
    HeadFacts(s1, book1.ledger, i);
    PopOwned(s1, book1.ledger, i);
  }

  lemma SmallStep(s: SlabState, book: Book, l: Layout)
    requires Matches(s, book) && ValidLayout(l) && ClassOf(l) < CLASSES
    ensures 1 <= l.align < WORD
    ensures Matches(Alloc(s, l).0, BookAlloc(book, l).0) && Alloc(s, l).1 == BookAlloc(book, l).1
  {
    var i := ClassOf(l);
    LayoutFacts(l);
    HeadFacts(s, book.ledger, i);
    if book.ledger.lists[i] != [] {
      PopStep(s, book, i);
    } else {
      RefillOwned(s, book, i);
      if BookRefill(book, i).1 {
        RefillPopStep(s, book, i);
        HeadFacts(s, book.ledger, i);
      }
    }
  }

  /** A stretch nobody owns can be granted as a large block. */
  lemma GrantOwned(s: SlabState, ledger: Ledger, start: nat, size: nat)
    requires Owned(s, ledger) && Unowned(s, ledger, start, size)
    requires forall k :: 0 <= k < |ledger.larges| ==> ledger.larges[k].0 + ledger.larges[k].1 <= start
    ensures Owned(s, Granted(ledger, start, size))
  {
    var ledger' := Granted(ledger, start, size);
    assert forall i, b :: IsBlock(ledger', i, b) <==> IsBlock(ledger, i, b);
  }

  lemma LargeStep(s: SlabState, book: Book, l: Layout)
    requires Matches(s, book) && TameLayout(book, l) && ClassOf(l) == CLASSES
    ensures 1 <= l.align < WORD
    ensures Matches(Alloc(s, l).0, BookAlloc(book, l).0) && Alloc(s, l).1 == BookAlloc(book, l).1
  {
    LayoutFacts(l);
    var k: nat :| AlignBits(k, l.align);
    BumpStep(s, book, l, k);
    var (s', p) := AllocFromBump(s, l);
    if p != 0 {
      assert forall m :: 0 <= m < |book.ledger.larges| ==> Inside(s, book.ledger.larges[m].0, book.ledger.larges[m].1);
      GrantOwned(s', book.ledger, p, l.size);
      CountedFrame(book.ledger, Granted(book.ledger, p, l.size), CLASSES);
    }
  }

  /** Allocation answers as the book does, and keeps the two together. */
  lemma AllocStep(s: SlabState, book: Book, l: Layout)
    requires Matches(s, book) && TameLayout(book, l)
    ensures 1 <= l.align < WORD
    ensures Matches(Alloc(s, l).0, BookAlloc(book, l).0) && Alloc(s, l).1 == BookAlloc(book, l).1
  {
    if ClassOf(l) < CLASSES { SmallStep(s, book, l); } else { LargeStep(s, book, l); }
  }

  /** A pointer the code accepts back: null, a live block of the layout's class, or any large block. */
  ghost predicate TamePointer(book: Book, ptr: nat, l: Layout)
    requires BookShape(book)
  {
    ptr == 0 || ClassOf(l) == CLASSES || ptr in book.ledger.live[ClassOf(l)]
  }

  lemma DeallocStep(s: SlabState, book: Book, ptr: nat, l: Layout)
    requires Matches(s, book) && TamePointer(book, ptr, l)
    ensures Matches(Dealloc(s, ptr, l), BookDealloc(book, ptr, l))
  {
    var i := ClassOf(l);
    if ptr != 0 && i < CLASSES {
      PushBack(s, book.ledger, i, ptr);
      assert CountOk(book.ledger, i);
      ReturnedCount(book.ledger, i, ptr);
      CountedFrame(book.ledger, Returned(book.ledger, i, ptr), i);
    }
  }

  // ---------- the clients' writes ----------

  /** The bytes `[a, a + n)` lie in one block that is in use. */
  ghost predicate InUse(ledger: Ledger, a: nat, n: nat)
    requires Shape(ledger)
  {
    || (exists i: nat, b: nat :: i < CLASSES && b in ledger.live[i] && b <= a && a + n <= b + SizeOf(i))
    || (exists k: nat ::
          k < |ledger.larges| && ledger.larges[k].0 <= a && a + n <= ledger.larges[k].0 + ledger.larges[k].1)
  }

  /** A client writes some bytes. */
  function Poke(s: SlabState, a: nat, bytes: seq<byte>): SlabState {
    if a + |bytes| <= |s.mem| then s.(mem := Splice(s.mem, a, bytes)) else s
  }

  /** A stretch in use is apart from every free block. */
  lemma UseIsApart(s: SlabState, ledger: Ledger, a: nat, n: nat, j: nat, c: nat)
    requires Owned(s, ledger) && InUse(ledger, a, n) && j < CLASSES && c in ledger.lists[j]
    ensures Apart(a, n, c, SizeOf(j))
  {
    assert IsBlock(ledger, j, c);
    if i: nat, b: nat :| i < CLASSES && b in ledger.live[i] && b <= a && a + n <= b + SizeOf(i) {
      assert IsBlock(ledger, i, b);
      assert Apart(b, SizeOf(i), c, SizeOf(j));
    } else {
      var k: nat :| k < |ledger.larges| && ledger.larges[k].0 <= a && a + n <= ledger.larges[k].0 + ledger.larges[k].1;
      assert Apart(ledger.larges[k].0, ledger.larges[k].1, c, SizeOf(j));
    }
  }

  /** Whatever clients write into their blocks, the allocator's own words stay as they are. */
  lemma PokeOwned(s: SlabState, ledger: Ledger, a: nat, bytes: seq<byte>)
    requires Owned(s, ledger) && InUse(ledger, a, |bytes|)
    ensures Owned(Poke(s, a, bytes), ledger)
  {
    var s' := Poke(s, a, bytes);
    forall j, c | 0 <= j < CLASSES && c in ledger.lists[j] ensures Word(s'.mem, c) == Word(s.mem, c) {
      UseIsApart(s, ledger, a, |bytes|, j, c);
      WordFrame(s.mem, s'.mem, c);
    }
    ListsFrame(s, ledger, s'.mem);
  }
}

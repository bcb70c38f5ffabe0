/** One call under the lock, cut into the steps between which other threads may write to their own blocks. */
module LockSteps {
  import opened Bytes
  import opened Bits
  import opened Slab
  import opened SlabInvariant
  import opened SlabSteps
  import opened SlabRuns

  // ---------- where a thread is ----------

  /** In client code, spinning on the lock, or somewhere inside the allocator with the guard in hand. */
  datatype Phase =
    | Out
    | Spinning(call: Op)
    | Entered(call: Op)
    | Carving(call: Op, off: nat, end: nat)
    | Popping(call: Op)
    | Leaving(call: Op, answer: nat)

  predicate Holds(ph: Phase) {
    ph.Entered? || ph.Carving? || ph.Popping? || ph.Leaving?
  }

  predicate IsCall(op: Op) {
    Aligned(op) && !op.Write?
  }

  predicate GoodPhase(ph: Phase) {
    && (!ph.Out? ==> IsCall(ph.call))
    && (ph.Carving? || ph.Popping? ==> ph.call.Request? && ClassOf(ph.call.l) < CLASSES)
  }

  /** The first step of `alloc`: the fast path, the refill's chunk, or the bump pointer. */
  function EnterRequest(s: SlabState, call: Op): (r: (SlabState, Phase))
    requires IsCall(call) && call.Request?
    ensures GoodPhase(r.1) && Holds(r.1) && r.1.call == call && |r.0.mem| == |s.mem|
  {
    var i := ClassOf(call.l);
    if !s.initialized then (s, Leaving(call, 0))
    else if i < CLASSES then
      if s.heads[i] != 0 then (s, Popping(call))
      else
        var (s1, chunk) := AllocFromBump(s, CHUNK_LAYOUT);
        if chunk == 0 then (s1, Leaving(call, 0)) else (s1, Carving(call, chunk, chunk + CHUNK_SIZE))
    else
      var (s1, p) := AllocFromBump(s, call.l);
      (s1, Leaving(call, p))
  }

  /** One round of the carving loop, or its end. */
  function CarveRound(s: SlabState, call: Op, off: nat, end: nat): (r: (SlabState, Phase))
    requires IsCall(call) && call.Request? && ClassOf(call.l) < CLASSES
    ensures GoodPhase(r.1) && Holds(r.1) && r.1.call == call && |r.0.mem| == |s.mem|
  {
    var i := ClassOf(call.l);
    if off + SIZE_CLASSES[i] <= end then (Push(s, i, off), Carving(call, off + SIZE_CLASSES[i], end))
      else (s, Popping(call))
  }

  /** The next step of the guard's holder inside `alloc` or `dealloc`. */
  function Body(s: SlabState, ph: Phase): (r: (SlabState, Phase))
    requires Holds(ph) && GoodPhase(ph)
    ensures GoodPhase(r.1) && Holds(r.1) && r.1.call == ph.call && |r.0.mem| == |s.mem|
  {
    match ph
    case Entered(call) => if call.Request? then EnterRequest(s, call)
      else (Dealloc(s, call.ptr, call.l), Leaving(call, 0))
    case Carving(call, off, end) => CarveRound(s, call, off, end)
    case Popping(call) =>
      var (s1, p) := Pop(s, ClassOf(call.l));
      (s1, Leaving(call, p))
    case Leaving(_, _) => (s, ph)
  }

  // ---------- what is true in between ----------

  /** `left` blocks of the chunk are still to be carved, and the list is `partial` so far. */
  ghost function Midway(book: Book, i: nat, partial: seq<nat>): (r: Book)
    requires BookShape(book) && i < CLASSES
    ensures BookShape(r)
  {
    BookBump(book, CHUNK_LAYOUT).0.(ledger := book.ledger.(lists := book.ledger.lists[i := partial]))
  }

  ghost function Filled(book: Book, i: nat): (r: Book)
    requires BookShape(book) && i < CLASSES
    ensures BookShape(r)
  {
    if book.ledger.lists[i] == [] then BookRefill(book, i).0 else book
  }

  /** From `off` it is `n` steps of `size` to `end`. */
  ghost predicate Stretch(off: nat, size: nat, n: nat, end: nat)
    decreases n
  {
    if n == 0 then off == end else off + size <= end && Stretch(off + size, size, n - 1, end)
  }

  lemma {:induction false} StretchIsTimes(off: nat, size: nat, n: nat)
    ensures Stretch(off, size, n, off + Times(n, size))
    decreases n
  {
    if n > 0 {
      TimesAdd(1, n - 1, size);
      assert Times(1, size) == size;
      StretchIsTimes(off + size, size, n - 1);
    }
  }

  ghost predicate CarvingOk(s: SlabState, book: Book, i: nat, off: nat, end: nat, left: nat, partial: seq<nat>)
    requires BookShape(book) && i < CLASSES
  {
    var size, chunk := SizeOf(i), BookBump(book, CHUNK_LAYOUT).1;
    && book.ledger.lists[i] == [] && chunk != 0 && off <= end == chunk + CHUNK_SIZE && Stretch(off, size, left, end)
    && IsMultiple(off, size) && Carved(off, size, left, partial) == Carved(chunk, size, PerChunk(i), [])
    && Unowned(s, Midway(book, i, partial).ledger, off, end - off)
  }

  ghost predicate CarveState(s: SlabState, book: Book, i: nat, off: nat, end: nat, left: nat, partial: seq<nat>)
    requires BookShape(book) && i < CLASSES
  {
    Agrees(s, Midway(book, i, partial)) && CarvingOk(s, book, i, off, end, left, partial)
  }

  ghost predicate PopState(s: SlabState, book: Book, i: nat)
    requires BookShape(book) && i < CLASSES
  {
    Agrees(s, Filled(book, i)) && Filled(book, i).ledger.lists[i] != []
      && (book.ledger.lists[i] == [] ==> BookRefill(book, i).1)
  }

  /** A block handed out covers no byte that was in use before. */
  ghost predicate FreshAnswer(book: Book, call: Op, answer: nat)
    requires BookShape(book)
  {
    call.Request? && answer != 0 ==> forall a: nat :: InUse(book.ledger, a, 1) ==> Apart(answer, call.l.size, a, 1)
  }

  ghost predicate LeaveState(s: SlabState, book: Book, call: Op, answer: nat)
    requires BookShape(book) && Aligned(call)
  {
    Matches(s, BookStep(book, call).0) && answer == BookStep(book, call).1 && FreshAnswer(book, call, answer)
  }

  /** What holds when the last finished call left the book `book` and the next one has come as far as `ph`. */
  ghost predicate PhaseOk(s: SlabState, book: Book, ph: Phase, left: nat, partial: seq<nat>) {
    && BookShape(book) && GoodPhase(ph) && Counted(book.ledger)
    && (Holds(ph) ==> TameOp(book, ph.call))
    && match ph
       case Out => Agrees(s, book)
       case Spinning(_) => Agrees(s, book)
       case Entered(_) => Agrees(s, book)
       case Carving(call, off, end) => CarveState(s, book, ClassOf(call.l), off, end, left, partial)
       case Popping(call) => PopState(s, book, ClassOf(call.l))
       case Leaving(call, answer) => LeaveState(s, book, call, answer)
  }

  /** What `left` and `partial` become with the holder's next step. */
  ghost function NextLeft(ph: Phase, left: nat): nat
    requires GoodPhase(ph)
  {
    if ph.Entered? && ph.call.Request? && ClassOf(ph.call.l) < CLASSES then PerChunk(ClassOf(ph.call.l))
    else if ph.Carving? && left > 0 then left - 1 else left
  }

  ghost function NextPartial(ph: Phase, left: nat, partial: seq<nat>): seq<nat> {
    if ph.Entered? then [] else if ph.Carving? && left > 0 then [ph.off] + partial else partial
  }

  // ---------- the steps of a call ----------

  lemma EnterCarving(s: SlabState, book: Book, i: nat)
    requires Matches(s, book) && i < CLASSES && book.ledger.lists[i] == []
    ensures var (s1, chunk) := AllocFromBump(s, CHUNK_LAYOUT);
            && chunk == BookBump(book, CHUNK_LAYOUT).1
            && (chunk == 0 ==> s1 == s)
            && (chunk != 0 ==> CarveState(s1, book, i, chunk, chunk + CHUNK_SIZE, PerChunk(i), []))
  {
    ChunkBump(s, book);
    var (s1, chunk) := AllocFromBump(s, CHUNK_LAYOUT);
    if chunk != 0 {
      ClassFacts(i);
      MultipleTrans(chunk, CHUNK_SIZE, SizeOf(i));
      StretchIsTimes(chunk, SizeOf(i), PerChunk(i));
      assert book.ledger.lists[i := []] == book.ledger.lists;
    }
  }

  /** The rest of the stretch is still nobody's after its first block was pushed. */
  lemma SplitUnowned(s: SlabState, ledger: Ledger, i: nat, off: nat, n: nat)
    requires Shape(ledger) && i < CLASSES && Unowned(s, ledger, off, n) && SizeOf(i) <= n
    ensures Unowned(s, ledger, off, SizeOf(i))
    ensures Unowned(Push(s, i, off), Freed(ledger, i, off), off + SizeOf(i), n - SizeOf(i))
  {
    FreedBlocks(ledger, i, off);
  }

  lemma CarveOne(s: SlabState, book: Book, i: nat, off: nat, end: nat, left: nat, partial: seq<nat>)
    requires BookShape(book) && i < CLASSES && CarveState(s, book, i, off, end, left, partial) && left > 0
    ensures off + SizeOf(i) <= end
            && CarveState(Push(s, i, off), book, i, off + SizeOf(i), end, left - 1, [off] + partial)
  {
    hide Agrees, Unowned;
    NextMultiple(off, SizeOf(i));
    PushMidway(s, book, i, off, end - off, partial);
  }

  lemma NextMultiple(off: nat, size: nat)
    requires IsMultiple(off, size)
    ensures IsMultiple(off + size, size)
  {
    assert Times(1, size) == size;
    MultipleAdd(off, size, size);
  }

  lemma PushMidway(s: SlabState, book: Book, i: nat, off: nat, n: nat, partial: seq<nat>)
    requires BookShape(book) && i < CLASSES && Agrees(s, Midway(book, i, partial)) && IsMultiple(off, SizeOf(i))
             && SizeOf(i) <= n
    requires Unowned(s, Midway(book, i, partial).ledger, off, n)
    ensures Agrees(Push(s, i, off), Midway(book, i, [off] + partial))
    ensures Unowned(Push(s, i, off), Midway(book, i, [off] + partial).ledger, off + SizeOf(i), n - SizeOf(i))
  {
    var ledger := Midway(book, i, partial).ledger;
    SplitUnowned(s, ledger, i, off, n);
    PushOwned(s, ledger, i, off);
    assert ledger.lists[i := [off] + ledger.lists[i]] == book.ledger.lists[i := [off] + partial];
    assert Freed(ledger, i, off) == Midway(book, i, [off] + partial).ledger;
  }

  lemma CarveDone(s: SlabState, book: Book, i: nat, off: nat, end: nat, partial: seq<nat>)
    requires BookShape(book) && i < CLASSES && CarveState(s, book, i, off, end, 0, partial)
    ensures off == end && PopState(s, book, i)
  {
    assert partial == Carved(BookBump(book, CHUNK_LAYOUT).1, SizeOf(i), PerChunk(i), []);
    RecountOwned(s, Midway(book, i, partial).ledger, BookRefill(book, i).0.ledger);
    RefilledSizes(book.ledger, i, BookBump(book, CHUNK_LAYOUT).1);
  }

  lemma BodyEntered(s: SlabState, book: Book, call: Op, left: nat, partial: seq<nat>)
    requires PhaseOk(s, book, Entered(call), left, partial) && call.Request? && ClassOf(call.l) < CLASSES
    ensures var (s', ph') := Body(s, Entered(call)); PhaseOk(s', book, ph', PerChunk(ClassOf(call.l)), [])
  {
    var i := ClassOf(call.l);
    HeadFacts(s, book.ledger, i);
    if book.ledger.lists[i] == [] {
      EnterCarving(s, book, i);
    }
  }

  lemma BodyDirect(s: SlabState, book: Book, call: Op, left: nat, partial: seq<nat>)
    requires PhaseOk(s, book, Entered(call), left, partial) && (call.Request? ==> ClassOf(call.l) == CLASSES)
    ensures var (s', ph') := Body(s, Entered(call)); PhaseOk(s', book, ph', left, [])
  {
    StepMatches(s, book, call);
    DirectIsFresh(s, book, call);
  }

  lemma DirectIsFresh(s: SlabState, book: Book, call: Op)
    requires Matches(s, book) && Aligned(call) && TameOp(book, call)
    ensures FreshAnswer(book, call, Step(s, call).1)
  {
    if call.Request? && Step(s, call).1 != 0 {
      forall a: nat | InUse(book.ledger, a, 1) ensures Apart(Step(s, call).1, call.l.size, a, 1) {
        FreshBlock(s, book, call.l, a, 1);
      }
    }
  }

  lemma PopIsFresh(s: SlabState, book: Book, call: Op)
    requires BookShape(book) && IsCall(call) && call.Request? && ClassOf(call.l) < CLASSES
    requires PopState(s, book, ClassOf(call.l))
    ensures FreshAnswer(book, call, Filled(book, ClassOf(call.l)).ledger.lists[ClassOf(call.l)][0])
  {
    var i := ClassOf(call.l);
    var filled := Filled(book, i);
    ClassLeast(call.l, i);
    forall a: nat | InUse(book.ledger, a, 1) ensures Apart(filled.ledger.lists[i][0], call.l.size, a, 1) {
      RefillKeepsUse(book, i, a, 1);
      FreshSmall(s, filled, i, a, 1);
    }
  }

  lemma CarvingMore(s: SlabState, book: Book, call: Op, off: nat, end: nat, left: nat, partial: seq<nat>)
    requires BookShape(book) && IsCall(call) && call.Request? && ClassOf(call.l) < CLASSES && Counted(book.ledger)
             && TameOp(book, call)
    requires CarveState(s, book, ClassOf(call.l), off, end, left, partial) && left > 0
    ensures var i := ClassOf(call.l);
            PhaseOk(Push(s, i, off), book, Carving(call, off + SizeOf(i), end), left - 1, [off] + partial)
  {
    hide CarveState;
    CarveOne(s, book, ClassOf(call.l), off, end, left, partial);
  }

  lemma CarvingRoom(s: SlabState, book: Book, i: nat, off: nat, end: nat, left: nat, partial: seq<nat>)
    requires BookShape(book) && i < CLASSES && CarveState(s, book, i, off, end, left, partial)
    ensures left > 0 <==> off + SizeOf(i) <= end
  {
  }

  lemma CarvingOver(s: SlabState, book: Book, call: Op, off: nat, end: nat, partial: seq<nat>)
    requires PhaseOk(s, book, Carving(call, off, end), 0, partial)
    ensures off == end && PhaseOk(s, book, Popping(call), 0, partial)
  {
    CarveDone(s, book, ClassOf(call.l), off, end, partial);
  }

  lemma BodyCarving(s: SlabState, book: Book, ph: Phase, left: nat, partial: seq<nat>)
    requires PhaseOk(s, book, ph, left, partial) && ph.Carving?
    ensures var (s', ph') := Body(s, ph); PhaseOk(s', book, ph', NextLeft(ph, left), NextPartial(ph, left, partial))
  {
    hide CarveState, PopState;
    ClassFacts(ClassOf(ph.call.l));
    CarvingRoom(s, book, ClassOf(ph.call.l), ph.off, ph.end, left, partial);
    if left > 0 {
      CarvingMore(s, book, ph.call, ph.off, ph.end, left, partial);
    } else {
      CarvingOver(s, book, ph.call, ph.off, ph.end, partial);
    }
  }

  lemma PopDone(s: SlabState, book: Book, call: Op)
    requires BookShape(book) && IsCall(call) && call.Request? && ClassOf(call.l) < CLASSES && Counted(book.ledger)
    requires PopState(s, book, ClassOf(call.l))
    ensures var (s', p) := Pop(s, ClassOf(call.l)); LeaveState(s', book, call, p)
  {
    var i := ClassOf(call.l);
    PopOwned(s, Filled(book, i).ledger, i);
    PoppedCounted(s, book, i);
    PopIsFresh(s, book, call);
  }

  lemma PoppedCounted(s: SlabState, book: Book, i: nat)
    requires BookShape(book) && Counted(book.ledger) && i < CLASSES && Agrees(s, Filled(book, i))
             && Filled(book, i).ledger.lists[i] != []
    requires book.ledger.lists[i] == [] ==> BookRefill(book, i).1
    ensures Counted(Taken(Filled(book, i).ledger, i))
  {
    var filled := Filled(book, i).ledger;
    assert filled.lists[i][0] in filled.lists[i];
    assert filled.lists[i][0] !in filled.live[i];
    if book.ledger.lists[i] == [] {
      RefillPopCounted(book, i);
    } else {
      assert CountOk(book.ledger, i);
      TakenCount(book.ledger, i);
      CountedFrame(book.ledger, Taken(book.ledger, i), i);
    }
  }

  /** Each step of a call keeps the memory and the book together; at the end the answer is the book's. */
  lemma BodyKeeps(s: SlabState, book: Book, ph: Phase, left: nat, partial: seq<nat>)
    requires PhaseOk(s, book, ph, left, partial) && Holds(ph) && !ph.Leaving?
    ensures var (s', ph') := Body(s, ph); PhaseOk(s', book, ph', NextLeft(ph, left), NextPartial(ph, left, partial))
  {
    match ph
    case Entered(call) =>
      if call.Request? && ClassOf(call.l) < CLASSES {
        BodyEntered(s, book, call, left, partial);
      } else {
        BodyDirect(s, book, call, left, partial);
      }
    case Carving(_, _, _) => BodyCarving(s, book, ph, left, partial);
    case Popping(call) => PopDone(s, book, call);
  }

  // ---------- writes in between ----------

  /** The stretch is in use and not in the block that the call under way gives back. */
  ghost predicate UsedThroughout(book: Book, ph: Phase, a: nat, n: nat)
    requires BookShape(book) && GoodPhase(ph)
  {
    InUse(book.ledger, a, n) && (ph.Leaving? ==> InUse(BookStep(book, ph.call).0.ledger, a, n))
  }

  lemma WriteAgrees(s: SlabState, current: Book, a: nat, bytes: seq<byte>)
    requires Agrees(s, current) && InUse(current.ledger, a, |bytes|)
    ensures Agrees(Poke(s, a, bytes), current)
  {
    PokeOwned(s, current.ledger, a, bytes);
  }

  lemma WriteCarve(s: SlabState, book: Book, i: nat, off: nat, end: nat, left: nat, partial: seq<nat>, a: nat,
                   bytes: seq<byte>)
    requires BookShape(book) && i < CLASSES && CarveState(s, book, i, off, end, left, partial)
             && InUse(book.ledger, a, |bytes|)
    ensures CarveState(Poke(s, a, bytes), book, i, off, end, left, partial)
  {
    hide Agrees;
    assert InUse(Midway(book, i, partial).ledger, a, |bytes|);
    WriteAgrees(s, Midway(book, i, partial), a, bytes);
  }

  lemma WritePop(s: SlabState, book: Book, i: nat, a: nat, bytes: seq<byte>)
    requires BookShape(book) && i < CLASSES && PopState(s, book, i) && InUse(book.ledger, a, |bytes|)
    ensures PopState(Poke(s, a, bytes), book, i)
  {
    RefillKeepsUse(book, i, a, |bytes|);
    WriteAgrees(s, Filled(book, i), a, bytes);
  }

  /** A write into a block in use, at any moment of another thread's call, disturbs nothing. */
  lemma WriteKeeps(s: SlabState, book: Book, ph: Phase, left: nat, partial: seq<nat>, a: nat, bytes: seq<byte>)
    requires PhaseOk(s, book, ph, left, partial) && UsedThroughout(book, ph, a, |bytes|)
    ensures PhaseOk(Poke(s, a, bytes), book, ph, left, partial)
  {
    match ph
    case Carving(call, off, end) => WriteCarve(s, book, ClassOf(call.l), off, end, left, partial, a, bytes);
    case Popping(call) => WritePop(s, book, ClassOf(call.l), a, bytes);
    case Leaving(call, _) => WriteAgrees(s, BookStep(book, call).0, a, bytes);
    case _ => WriteAgrees(s, book, a, bytes);
  }
}

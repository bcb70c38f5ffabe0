/** How much heap small requests need: exactly when they fail, and when a whole run never does. */
module SlabSpace {
  import opened Bits
  import opened Slab
  import opened SlabInvariant
  import opened SlabSteps
  import opened SlabRuns

  // ---------- chunks in all ----------

  function SumTo(f: seq<nat>, n: nat): nat
    requires n <= |f|
  {
    if n == 0 then 0 else f[n - 1] + SumTo(f, n - 1)
  }

  /** All chunks that peaks of `peak[i]` live blocks need: the sum of `ceil(peak[i] / (4096 / S_i))` over the first
      `n` classes. */
  function NeedTo(peak: seq<nat>, n: nat): nat
    requires n <= |peak| && n <= CLASSES
  {
    if n == 0 then 0 else ChunksFor(peak[n - 1], n - 1) + NeedTo(peak, n - 1)
  }

  lemma CeilMono(p: nat, q: nat, i: nat)
    requires i < CLASSES && p <= q
    ensures ChunksFor(p, i) <= ChunksFor(q, i)
  {
    ClassFacts(i);
    QuotientMono(p + PerChunk(i) - 1, q + PerChunk(i) - 1, PerChunk(i));
  }

  lemma QuotientMono(x: nat, y: nat, n: nat)
    requires n >= 1 && x <= y
    ensures x / n <= y / n
  {
    var q, r := x / n, y / n;
    assert Times(q, n) <= x && y < Times(r, n) + n;
    if r < q {
      TimesMono(r + 1, q, n);
      TimesAdd(r, 1, n);
    }
  }

  ghost predicate Below(p: seq<nat>, q: seq<nat>) {
    |p| == |q| == CLASSES && forall i :: 0 <= i < CLASSES ==> p[i] <= q[i]
  }

  lemma {:induction false} NeedMono(p: seq<nat>, q: seq<nat>, n: nat)
    requires Below(p, q) && n <= CLASSES
    ensures NeedTo(p, n) <= NeedTo(q, n)
  {
    if n > 0 {
      CeilMono(p[n - 1], q[n - 1], n - 1);
      NeedMono(p, q, n - 1);
    }
  }

  /** The chunks carved are the ones the peaks need. */
  lemma {:induction false} ChunksAreNeed(ledger: Ledger, n: nat)
    requires Shape(ledger) && Counted(ledger) && n <= CLASSES
    ensures SumTo(ledger.chunks, n) == NeedTo(ledger.peak, n)
  {
    if n > 0 {
      assert CountOk(ledger, n - 1);
      CountIsCeil(ledger, n - 1);
      ChunksAreNeed(ledger, n - 1);
    }
  }

  lemma {:induction false} SumBump(f: seq<nat>, i: nat, n: nat)
    requires i < |f| && n <= |f|
    ensures SumTo(f[i := f[i] + 1], n) == SumTo(f, n) + if i < n then 1 else 0
  {
    if n > 0 { SumBump(f, i, n - 1); }
  }

  // ---------- the bump pointer of a run of small requests ----------

  /** `base` is the first multiple of 4096 from `start` on. */
  ghost predicate IsBase(start: nat, base: nat) {
    start <= base < start + CHUNK_SIZE && IsMultiple(base, CHUNK_SIZE)
  }

  /** Chunks are cut one after the other from `base` on. */
  ghost predicate Packed(book: Book, base: nat)
    requires BookShape(book)
  {
    var n := SumTo(book.ledger.chunks, CLASSES);
    IsBase(book.start, base) && book.bump == if n == 0 then book.start else base + CHUNK_SIZE * n
  }

  /** Room for `n` chunks. */
  ghost predicate Fits(book: Book, base: nat, n: nat) {
    n == 0 || base + CHUNK_SIZE * n <= book.end
  }

  lemma NextChunk(book: Book, base: nat)
    requires BookShape(book) && Packed(book, base) && book.bump + CHUNK_SIZE <= WORD
    ensures RoundUp(book.bump, CHUNK_SIZE) == base + CHUNK_SIZE * SumTo(book.ledger.chunks, CLASSES)
  {
    var n := SumTo(book.ledger.chunks, CLASSES);
    var r := RoundUp(book.bump, CHUNK_SIZE);
    RoundUpSpec(book.bump, CHUNK_SIZE);
    var next := base + CHUNK_SIZE * n;
    assert Times(n, CHUNK_SIZE) == CHUNK_SIZE * n;
    MultipleAdd(base, CHUNK_SIZE * n, CHUNK_SIZE);
    MultiplesApart(r, next, CHUNK_SIZE);
    MultiplesApart(next, r, CHUNK_SIZE);
  }

  /** A refill succeeds exactly when one more chunk fits. */
  lemma ChunkFits(book: Book, base: nat, i: nat)
    requires BookShape(book) && Packed(book, base) && 0 < book.start <= book.bump && book.bump + CHUNK_SIZE <= WORD
             && i < CLASSES
    ensures BookRefill(book, i).1 <==> Fits(book, base, SumTo(book.ledger.chunks, CLASSES) + 1)
    ensures BookRefill(book, i).1 ==> Packed(BookRefill(book, i).0, base)
  {
    NextChunk(book, base);
    SumBump(book.ledger.chunks, i, CLASSES);
  }

  lemma RefillAnswer(s: SlabState, book: Book, base: nat, i: nat)
    requires Agrees(s, book) && Packed(book, base) && i < CLASSES
    ensures BookRefill(book, i).1 <==> Fits(book, base, SumTo(book.ledger.chunks, CLASSES) + 1)
    ensures BookRefill(book, i).1 ==> Packed(BookRefill(book, i).0, base)
  {
    ChunkFits(book, base, i);
  }

  /** A refill succeeds exactly when a chunk fits at the first multiple of 4096 from the bump pointer on. */
  lemma RefillRoom(book: Book, i: nat)
    requires BookShape(book) && 0 < book.bump && i < CLASSES
    ensures BookRefill(book, i).1 <==> RoundUp(book.bump, CHUNK_SIZE) + CHUNK_SIZE <= book.end
  {
    RoundUpSpec(book.bump, CHUNK_SIZE);
  }

  /** In every state, a small request fails exactly when its list is empty and no chunk fits behind the bump pointer. */
  lemma SmallAnswer(s: SlabState, book: Book, l: Layout)
    requires Matches(s, book) && ValidLayout(l) && ClassOf(l) < CLASSES
    ensures 1 <= l.align < WORD
    ensures Alloc(s, l).1 == 0
            <==> book.ledger.lists[ClassOf(l)] == [] && RoundUp(s.bump, CHUNK_SIZE) + CHUNK_SIZE > s.heapEnd
  {
    var i := ClassOf(l);
    AllocStep(s, book, l);
    RefillRoom(book, i);
    if book.ledger.lists[i] != [] {
      PopStep(s, book, i);
    } else if BookRefill(book, i).1 {
      RefillPopStep(s, book, i);
    }
  }

  /** When chunks are all that was ever cut, that is when one more chunk than so far does not fit from `base` on. */
  lemma PackedAnswer(s: SlabState, book: Book, base: nat, l: Layout)
    requires Matches(s, book) && Packed(book, base) && ValidLayout(l) && ClassOf(l) < CLASSES
    ensures 1 <= l.align < WORD
    ensures Alloc(s, l).1 == 0
            <==> book.ledger.lists[ClassOf(l)] == [] && !Fits(book, base, SumTo(book.ledger.chunks, CLASSES) + 1)
    ensures Packed(BookAlloc(book, l).0, base)
  {
    var i := ClassOf(l);
    AllocStep(s, book, l);
    if book.ledger.lists[i] != [] {
      PopStep(s, book, i);
    } else {
      RefillAnswer(s, book, base, i);
      if BookRefill(book, i).1 { RefillPopStep(s, book, i); }
    }
  }

  // ---------- what a run asks for ----------

  /** Blocks asked for and not yet given back, per class, and the most there ever were. */
  datatype Demand = Demand(now: seq<nat>, peak: seq<nat>)

  ghost predicate DemandShape(d: Demand) { |d.now| == |d.peak| == CLASSES }

  /** Demand counts the calls alone: it knows neither memory nor addresses. */
  function Asked(d: Demand, op: Op): (r: Demand)
    requires |d.now| == |d.peak| == CLASSES
    ensures |r.now| == |r.peak| == CLASSES
    ensures Below(d.peak, r.peak)
  {
    match op
    case Request(l) =>
      var i := ClassOf(l);
      if i < CLASSES then Demand(d.now[i := d.now[i] + 1], d.peak[i := Max(d.peak[i], d.now[i] + 1)]) else d
    case Release(ptr, l) =>
      var i := ClassOf(l);
      if ptr != 0 && i < CLASSES && d.now[i] > 0 then d.(now := d.now[i := d.now[i] - 1]) else d
    case Write(a, bytes) => d
  }

  function Demanded(d: Demand, ops: seq<Op>): (r: Demand)
    requires |d.now| == |d.peak| == CLASSES
    ensures |r.now| == |r.peak| == CLASSES && Below(d.peak, r.peak)
    decreases |ops|
  {
    if ops == [] then d else Demanded(Asked(d, ops[0]), ops[1..])
  }

  /** The ledger's counts are the demand's. */
  ghost predicate Tied(ledger: Ledger, d: Demand) {
    && Shape(ledger) && DemandShape(d)
    && forall i :: 0 <= i < CLASSES ==> |ledger.live[i]| == d.now[i] && ledger.peak[i] == d.peak[i]
  }

  ghost predicate SmallOnly(ops: seq<Op>) {
    forall k :: 0 <= k < |ops| && ops[k].Request? ==> ClassOf(ops[k].l) < CLASSES
  }

  lemma ReleaseTied(s: SlabState, book: Book, d: Demand, ptr: nat, l: Layout)
    requires Matches(s, book) && Tied(book.ledger, d) && TamePointer(book, ptr, l)
    ensures Tied(BookDealloc(book, ptr, l).ledger, Asked(d, Release(ptr, l)))
  {
  }

  lemma TakenTied(ledger: Ledger, d: Demand, l: Layout)
    requires Tied(ledger, d) && ClassOf(l) < CLASSES && ledger.lists[ClassOf(l)] != []
             && ledger.lists[ClassOf(l)][0] !in ledger.live[ClassOf(l)]
    ensures Tied(Taken(ledger, ClassOf(l)), Asked(d, Request(l)))
  {
  }

  lemma RefilledTied(book: Book, d: Demand, i: nat)
    requires BookShape(book) && Tied(book.ledger, d) && i < CLASSES
    ensures Tied(BookRefill(book, i).0.ledger, d)
  {
  }

  lemma RequestTied(s: SlabState, book: Book, d: Demand, l: Layout)
    requires Matches(s, book) && Tied(book.ledger, d) && ValidLayout(l) && ClassOf(l) < CLASSES
    ensures 1 <= l.align < WORD
    ensures BookAlloc(book, l).1 != 0 ==> Tied(BookAlloc(book, l).0.ledger, Asked(d, Request(l)))
  {
    var i := ClassOf(l);
    LayoutFacts(l);
    if book.ledger.lists[i] != [] {
      assert book.ledger.lists[i][0] in book.ledger.lists[i];
      TakenTied(book.ledger, d, l);
    } else if BookRefill(book, i).1 {
      RefillNonEmpty(s, book, i);
      RefilledTied(book, d, i);
      TakenTied(BookRefill(book, i).0.ledger, d, l);
    }
  }

  /** When the list is empty, one more live block needs one more chunk. */
  lemma NextNeeds(book: Book, d: Demand, l: Layout)
    requires BookShape(book) && Counted(book.ledger) && Tied(book.ledger, d) && ClassOf(l) < CLASSES
             && book.ledger.lists[ClassOf(l)] == []
    ensures NeedTo(Asked(d, Request(l)).peak, CLASSES) >= SumTo(book.ledger.chunks, CLASSES) + 1
  {
    var i, ledger := ClassOf(l), book.ledger;
    assert CountOk(ledger, i);
    CountIsCeil(ledger, i);
    var p := Asked(d, Request(l)).peak;
    assert p[i] > Times(ledger.chunks[i], PerChunk(i));
    OneMore(ledger.chunks[i], i, p[i]);
    ChunksAreNeed(ledger, CLASSES);
    assert d.peak == ledger.peak;
    NeedGrows(d.peak, p, i, CLASSES);
  }

  lemma OneMore(c: nat, i: nat, p: nat)
    requires i < CLASSES && p > Times(c, PerChunk(i))
    ensures ChunksFor(p, i) >= c + 1
  {
    ClassFacts(i);
    var n := PerChunk(i);
    TimesAdd(c, 1, n);
    QuotientUnique(Times(c + 1, n), n, c + 1);
    QuotientMono(Times(c + 1, n), p + n - 1, n);
  }

  lemma {:induction false} NeedGrows(p: seq<nat>, q: seq<nat>, i: nat, n: nat)
    requires Below(p, q) && i < CLASSES && n <= CLASSES && ChunksFor(q[i], i) >= ChunksFor(p[i], i) + 1
    ensures NeedTo(q, n) >= NeedTo(p, n) + if i < n then 1 else 0
  {
    if n > 0 {
      CeilMono(p[n - 1], q[n - 1], n - 1);
      NeedGrows(p, q, i, n - 1);
    }
  }

  lemma NextFits(book: Book, base: nat, d: Demand, l: Layout)
    requires BookShape(book) && Counted(book.ledger) && Tied(book.ledger, d) && ClassOf(l) < CLASSES
    requires Fits(book, base, NeedTo(Asked(d, Request(l)).peak, CLASSES))
    ensures book.ledger.lists[ClassOf(l)] == [] ==> Fits(book, base, SumTo(book.ledger.chunks, CLASSES) + 1)
  {
    if book.ledger.lists[ClassOf(l)] == [] { NextNeeds(book, d, l); }
  }

  /** The state, the book and the demand agree. */
  ghost predicate Ready(s: SlabState, book: Book, base: nat, d: Demand) {
    Matches(s, book) && Packed(book, base) && Tied(book.ledger, d)
  }

  /** No request of the run is answered with null. */
  ghost predicate NeverNull(ops: seq<Op>, answers: seq<nat>) {
    |answers| == |ops| && forall k :: 0 <= k < |ops| && ops[k].Request? ==> answers[k] != 0
  }

  /** A request for which the demand's chunks fit is answered. */
  lemma RequestAnswered(s: SlabState, book: Book, base: nat, d: Demand, l: Layout)
    requires Ready(s, book, base, d) && ValidLayout(l) && ClassOf(l) < CLASSES
    requires Fits(book, base, NeedTo(Asked(d, Request(l)).peak, CLASSES))
    ensures 1 <= l.align < WORD
    ensures Alloc(s, l).1 != 0
  {
    hide Agrees, Fits;
    NextFits(book, base, d, l);
    PackedAnswer(s, book, base, l);
  }

  /** A step that is not answered with null keeps state, book and demand together. */
  lemma StepReady(s: SlabState, book: Book, base: nat, d: Demand, op: Op)
    requires Ready(s, book, base, d) && Aligned(op) && TameOp(book, op)
    requires op.Request? ==> ClassOf(op.l) < CLASSES && Step(s, op).1 != 0
    ensures Ready(Step(s, op).0, BookStep(book, op).0, base, Asked(d, op))
  {
    StepMatches(s, book, op);
    match op
    case Request(l) =>
      PackedAnswer(s, book, base, l);
      AllocStep(s, book, l);
      RequestTied(s, book, d, l);
    case Release(ptr, l) => ReleaseTied(s, book, d, ptr, l);
    case Write(a, bytes) =>
  }

  lemma StepAnswered(s: SlabState, book: Book, base: nat, d: Demand, op: Op)
    requires Ready(s, book, base, d) && Aligned(op) && TameOp(book, op)
    requires op.Request? ==> ClassOf(op.l) < CLASSES
    requires Fits(book, base, NeedTo(Asked(d, op).peak, CLASSES))
    ensures op.Request? ==> Step(s, op).1 != 0
    ensures Ready(Step(s, op).0, BookStep(book, op).0, base, Asked(d, op))
  {
    hide Ready, Fits, BookStep;
    if op.Request? { RequestAnswered(s, book, base, d, op.l); }
    StepReady(s, book, base, d, op);
  }

  lemma NeverNullCons(ops: seq<Op>, p: nat, answers: seq<nat>)
    requires ops != [] && (ops[0].Request? ==> p != 0) && NeverNull(ops[1..], answers)
    ensures NeverNull(ops, [p] + answers)
  {
    assert forall k :: 1 <= k < |ops| ==> ops[k] == ops[1..][k - 1];
  }

  lemma SmallTail(ops: seq<Op>)
    requires SmallOnly(ops) && ops != []
    ensures (ops[0].Request? ==> ClassOf(ops[0].l) < CLASSES) && SmallOnly(ops[1..])
  {
    assert forall k :: 1 <= k < |ops| ==> ops[k] == ops[1..][k - 1];
  }

  /** A run of small requests whose chunks fit never gets null. */
  lemma {:induction false} RunAnswered(s: SlabState, book: Book, base: nat, d: Demand, ops: seq<Op>)
    requires Ready(s, book, base, d) && TameRun(book, ops) && SmallOnly(ops)
    requires Fits(book, base, NeedTo(Demanded(d, ops).peak, CLASSES))
    ensures forall k :: 0 <= k < |ops| ==> Aligned(ops[k])
    ensures NeverNull(ops, Run(s, ops).1)
    decreases |ops|
  {
    TameIsAligned(book, ops);
    if ops != [] {
      hide Ready, BookStep, TameOp, NeedTo, SmallOnly, Step, NeverNull, ClassOf;
      var op := ops[0];
      SmallTail(ops);
      NeedMono(Asked(d, op).peak, Demanded(d, ops).peak, CLASSES);
      StepAnswered(s, book, base, d, op);
      RunAnswered(Step(s, op).0, BookStep(book, op).0, base, Asked(d, op), ops[1..]);
      NeverNullCons(ops, Step(s, op).1, Run(Step(s, op).0, ops[1..]).1);
    }
  }

  lemma NeverNullTail(ops: seq<Op>, p: nat, answers: seq<nat>)
    requires ops != [] && NeverNull(ops, [p] + answers)
    ensures (ops[0].Request? ==> p != 0) && NeverNull(ops[1..], answers)
  {
    var all := [p] + answers;
    forall k | 0 <= k < |ops| - 1 && ops[1..][k].Request? ensures answers[k] != 0 {
      assert ops[k + 1] == ops[1..][k] && all[k + 1] == answers[k];
    }
  }

  /** A run that never gets null ends with the demand's counts, all chunks cut from `base` on. */
  lemma {:induction false} RunReady(s: SlabState, book: Book, base: nat, d: Demand, ops: seq<Op>)
    requires Ready(s, book, base, d) && TameRun(book, ops) && SmallOnly(ops)
    ensures forall k :: 0 <= k < |ops| ==> Aligned(ops[k])
    ensures NeverNull(ops, Run(s, ops).1) ==> Ready(Run(s, ops).0, BookRun(book, ops).0, base, Demanded(d, ops))
    decreases |ops|
  {
    TameIsAligned(book, ops);
    if ops != [] && NeverNull(ops, Run(s, ops).1) {
      hide Ready, BookStep, TameOp, SmallOnly, Step, NeverNull, ClassOf;
      var op := ops[0];
      SmallTail(ops);
      NeverNullTail(ops, Step(s, op).1, Run(Step(s, op).0, ops[1..]).1);
      StepReady(s, book, base, d, op);
      RunReady(Step(s, op).0, BookStep(book, op).0, base, Asked(d, op), ops[1..]);
    }
  }

  /** What has been cut fits. */
  lemma ReadyFits(s: SlabState, book: Book, base: nat, d: Demand)
    requires Ready(s, book, base, d)
    ensures Fits(book, base, NeedTo(d.peak, CLASSES))
  {
    ChunksAreNeed(book.ledger, CLASSES);
    assert d.peak == book.ledger.peak;
  }

  const NO_DEMAND: Demand := Demand(NONE, NONE)

  lemma StartPacked(start: nat, size: nat, base: nat)
    requires IsBase(start, base)
    ensures Packed(EmptyBook(start, size), base) && Tied(EmptyBook(start, size).ledger, NO_DEMAND)
  {
    EmptyLedger(start, size);
    var c := EmptyBook(start, size).ledger.chunks;
    NoneSums(c, CLASSES);
  }

  lemma {:induction false} NoneSums(f: seq<nat>, n: nat)
    requires n <= |f| && forall i :: 0 <= i < |f| ==> f[i] == 0
    ensures SumTo(f, n) == 0
  {
    if n > 0 { NoneSums(f, n - 1); }
  }

  lemma StartFits(start: nat, size: nat, base: nat, n: nat)
    ensures Fits(EmptyBook(start, size), base, n) <==> n == 0 || base + CHUNK_SIZE * n <= start + size
  {
  }

  lemma RegionRoom(mem: seq<Bytes.byte>, start: nat, size: nat)
    requires GoodRegion(mem, start, size)
    ensures start + CHUNK_SIZE <= WORD
  {
  }

  lemma StartReady(mem: seq<Bytes.byte>, start: nat, size: nat)
    requires GoodRegion(mem, start, size)
    ensures Ready(Started(mem, start, size), EmptyBook(start, size), AlignUp(start, CHUNK_SIZE), NO_DEMAND)
  {
    StartMatches(mem, start, size);
    RegionRoom(mem, start, size);
    ChunkStart(start);
    hide Matches, Packed, Tied, Started, GoodRegion, EmptyBook, AlignUp;
    StartPacked(start, size, AlignUp(start, CHUNK_SIZE));
  }

  lemma SameRoom(book: Book, book': Book, base: nat, n: nat)
    requires book'.end == book.end
    ensures Fits(book', base, n) <==> Fits(book, base, n)
  {
  }

  /** A run never gets null exactly when the chunks that the calls ask for fit. */
  lemma AnsweredIff(s: SlabState, book: Book, base: nat, d: Demand, ops: seq<Op>)
    requires Ready(s, book, base, d) && TameRun(book, ops) && SmallOnly(ops)
    ensures forall k :: 0 <= k < |ops| ==> Aligned(ops[k])
    ensures NeverNull(ops, Run(s, ops).1) <==> Fits(book, base, NeedTo(Demanded(d, ops).peak, CLASSES))
  {
    RunReady(s, book, base, d, ops);
    var need := NeedTo(Demanded(d, ops).peak, CLASSES);
    hide Ready, Run, BookRun, NeedTo, Demanded, NeverNull, Fits, SmallOnly, TameRun, Aligned;
    if NeverNull(ops, Run(s, ops).1) {
      ReadyFits(Run(s, ops).0, BookRun(book, ops).0, base, Demanded(d, ops));
      SameRoom(book, BookRun(book, ops).0, base, need);
    }
    if Fits(book, base, need) { RunAnswered(s, book, base, d, ops); }
  }

  /** From initialization on, no call gets null exactly when the chunks that the calls ask for fit after the first
      multiple of 4096, or there are none. */
  lemma SmallRunsSucceed(mem: seq<Bytes.byte>, start: nat, size: nat, ops: seq<Op>)
    requires GoodRegion(mem, start, size) && TameRun(EmptyBook(start, size), ops) && SmallOnly(ops)
    ensures forall k :: 0 <= k < |ops| ==> Aligned(ops[k])
    ensures var need := NeedTo(Demanded(NO_DEMAND, ops).peak, CLASSES);
            NeverNull(ops, Run(Started(mem, start, size), ops).1)
            <==> need == 0 || AlignUp(start, CHUNK_SIZE) + CHUNK_SIZE * need <= start + size
  {
    StartReady(mem, start, size);
    hide Ready, Run, NeedTo, Demanded, NeverNull, Fits, SmallOnly, TameRun, Aligned, Started, GoodRegion, EmptyBook,
      AlignUp;
    AnsweredIff(Started(mem, start, size), EmptyBook(start, size), AlignUp(start, CHUNK_SIZE), NO_DEMAND, ops);
    StartFits(start, size, AlignUp(start, CHUNK_SIZE), NeedTo(Demanded(NO_DEMAND, ops).peak, CLASSES));
  }
}

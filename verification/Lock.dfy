/** The allocator behind its spinlock, shared by any number of threads: every interleaving, step by step. */
module Lock {
  import opened Bytes
  import opened Bits
  import opened Slab
  import opened SlabInvariant
  import opened SlabSteps
  import opened SlabRuns
  import opened LockSteps

  // ---------- the system ----------

  /** A block in the hands of client code, with the layout it was asked for. */
  datatype Grant = Grant(ptr: nat, l: Layout)

  datatype Thread = Thread(phase: Phase, grants: set<Grant>)

  datatype World = World(locked: bool, s: SlabState, threads: seq<Thread>)

  datatype Event =
    | Begin(t: nat, call: Op)                 // a thread calls `alloc` or `dealloc`
    | Spin(t: nat)                            // its compare-exchange fails
    | Acquire(t: nat)                         // its compare-exchange succeeds
    | Work(t: nat)                            // the next step of the allocator's code
    | Leave(t: nat)                           // the guard is dropped, and the call returns
    | Store(t: nat, a: nat, bytes: seq<byte>) // client code writes into a block it holds
    | Give(t: nat, u: nat, g: Grant)          // a block is handed to another thread

  /** The contract of `GlobalAlloc`: a layout of at least one byte, or a block this thread holds, with its layout. */
  ghost predicate LegalCall(w: World, th: Thread, call: Op) {
    && IsCall(call)
    && match call
       case Request(l) => ValidLayout(l) && l.size >= 1 && w.s.heapEnd + l.align <= WORD
       case Release(ptr, l) => ptr == 0 || Grant(ptr, l) in th.grants
       case Write(_, _) => false
  }

  ghost predicate Enabled(w: World, e: Event) {
    e.t < |w.threads| &&
    var th := w.threads[e.t];
    GoodPhase(th.phase) &&
    match e
    case Begin(_, call) => th.phase.Out? && LegalCall(w, th, call)
    case Spin(_) => th.phase.Spinning? && w.locked
    case Acquire(_) => th.phase.Spinning? && !w.locked
    case Work(_) => Holds(th.phase) && !th.phase.Leaving?
    case Leave(_) => th.phase.Leaving?
    case Store(_, a, bytes) => th.phase.Out? && exists g :: g in th.grants && Covers(g, a, |bytes|)
    case Give(_, u, g) => th.phase.Out? && g in th.grants && u < |w.threads|
  }

  ghost predicate Covers(g: Grant, a: nat, n: nat) {
    g.ptr <= a && a + n <= g.ptr + g.l.size
  }

  function Surrendered(call: Op): set<Grant> {
    if call.Release? && call.ptr != 0 then {Grant(call.ptr, call.l)} else {}
  }

  function Gained(call: Op, answer: nat): set<Grant> {
    if call.Request? && answer != 0 then {Grant(answer, call.l)} else {}
  }

  /** The block `g` goes from thread `t` to thread `u`. */
  function Moved(threads: seq<Thread>, t: nat, u: nat, g: Grant): seq<Thread>
    requires t < |threads| && u < |threads|
  {
    threads[t := threads[t].(grants := threads[t].grants - {g})][u := threads[u].(grants := threads[u].grants + {g})]
  }

  ghost function Next(w: World, e: Event): World
    requires Enabled(w, e)
  {
    var th := w.threads[e.t];
    match e
    case Begin(t, call) => w.(threads := w.threads[t := Thread(Spinning(call), th.grants - Surrendered(call))])
    case Spin(_) => w
    case Acquire(t) => w.(locked := true, threads := w.threads[t := th.(phase := Entered(th.phase.call))])
    case Work(t) =>
      var (s', ph') := Body(w.s, th.phase);
      w.(s := s', threads := w.threads[t := th.(phase := ph')])
    case Leave(t) =>
      w.(locked := false, threads := w.threads[t := Thread(Out, th.grants + Gained(th.phase.call, th.phase.answer))])
    case Store(_, a, bytes) => w.(s := Poke(w.s, a, bytes))
    case Give(t, u, g) =>
      if t == u then w
      else w.(threads := Moved(w.threads, t, u, g))
  }

  // ---------- its history ----------

  /** What the proof remembers: the book after the last finished call, the guard's holder (-1 for none) and how far it
      is, all calls in the order the lock was acquired, and the answers so far. */
  datatype Hist = Hist(book: Book, holder: int, left: nat, partial: seq<nat>, calls: seq<Op>, answers: seq<nat>)

  ghost function Record(h: Hist, w: World, e: Event): Hist
    requires Enabled(w, e) && BookShape(h.book)
  {
    var ph := w.threads[e.t].phase;
    match e
    case Acquire(t) => h.(holder := t, calls := h.calls + [ph.call])
    case Work(_) => h.(left := NextLeft(ph, h.left), partial := NextPartial(ph, h.left, h.partial))
    case Leave(_) => h.(book := BookStep(h.book, ph.call).0, holder := -1, answers := h.answers + [ph.answer])
    case _ => h
  }

  // ---------- the invariant ----------

  /** One holder at most, and the flag is set exactly while there is one. */
  ghost predicate LockOk(w: World, holder: int) {
    && -1 <= holder < |w.threads|
    && (w.locked <==> holder >= 0)
    && forall t :: 0 <= t < |w.threads| ==> (Holds(w.threads[t].phase) <==> t == holder)
  }

  ghost function HolderPhase(w: World, holder: int): Phase
    requires holder < |w.threads|
  {
    if holder < 0 then Out else w.threads[holder].phase
  }

  /** The calls that threads have made are ones the code allows. */
  ghost predicate CallOk(end: nat, ph: Phase) {
    && GoodPhase(ph)
    && (!ph.Out? && ph.call.Request? ==> ValidLayout(ph.call.l) && ph.call.l.size >= 1 && end + ph.call.l.align <= WORD)
  }

  ghost predicate CallsOk(w: World, end: nat) {
    forall t :: 0 <= t < |w.threads| ==> CallOk(end, w.threads[t].phase)
  }

  /** A thread's blocks, with the one it is giving back. */
  function Tokens(th: Thread): set<Grant> {
    th.grants + if th.phase.Out? then {} else Surrendered(th.phase.call)
  }

  /** A block in use stands behind the grant. */
  ghost predicate Backed(book: Book, g: Grant)
    requires BookShape(book)
  {
    g.ptr != 0 && g.l.size >= 1 && Serves(book.ledger, g.ptr, g.l)
  }

  /** Every grant is backed by a block in use, and no block by two grants. */
  ghost predicate TokensOk(threads: seq<Thread>, book: Book)
    requires BookShape(book)
  {
    && (forall t, g :: 0 <= t < |threads| && g in Tokens(threads[t]) ==> Backed(book, g))
    && (forall t, u, g, k ::
          0 <= t < |threads| && 0 <= u < |threads|
          && g in Tokens(threads[t]) && k in Tokens(threads[u]) && g.ptr == k.ptr
          ==> t == u && g == k)
  }

  /** The grants of a thread that is giving a block back no longer include it. */
  ghost predicate GivenUp(threads: seq<Thread>) {
    forall t :: 0 <= t < |threads| && !threads[t].phase.Out? ==> Surrendered(threads[t].phase.call) !! threads[t].grants
  }

  /** The book and the answers are those of the sequential run of the finished calls, in the order of acquisition. */
  ghost predicate HistOk(w: World, h: Hist, book0: Book) {
    && BookShape(book0) && |h.calls| == |h.answers| + (if h.holder >= 0 then 1 else 0)
    && (forall k :: 0 <= k < |h.calls| ==> IsCall(h.calls[k]))
    && TameRun(book0, h.calls)
    && BookRun(book0, h.calls[..|h.answers|]) == (h.book, h.answers)
    && (0 <= h.holder < |w.threads| && !w.threads[h.holder].phase.Out?
       ==> w.threads[h.holder].phase.call == h.calls[|h.answers|])
  }

  ghost predicate Inv(w: World, h: Hist, book0: Book) {
    && LockOk(w, h.holder)
    && PhaseOk(w.s, h.book, HolderPhase(w, h.holder), h.left, h.partial)
    && CallsOk(w, h.book.end)
    && TokensOk(w.threads, h.book) && GivenUp(w.threads)
    && HistOk(w, h, book0)
  }

  // ---------- the history, one call at a time ----------

  lemma AlignedSnoc(ops: seq<Op>, op: Op)
    requires (forall k :: 0 <= k < |ops| ==> Aligned(ops[k])) && Aligned(op)
    ensures forall k :: 0 <= k < |ops + [op]| ==> Aligned((ops + [op])[k])
  {
  }

  lemma {:induction false} BookRunSnoc(book: Book, ops: seq<Op>, op: Op)
    requires BookShape(book) && (forall k :: 0 <= k < |ops| ==> Aligned(ops[k])) && Aligned(op)
    ensures forall k :: 0 <= k < |ops + [op]| ==> Aligned((ops + [op])[k])
    ensures var (book1, ps) := BookRun(book, ops);
            BookRun(book, ops + [op]) == (BookStep(book1, op).0, ps + [BookStep(book1, op).1])
    decreases |ops|
  {
    hide BookStep;
    AlignedSnoc(ops, op);
    if ops == [] {
      assert [op][1..] == [];
      assert [] + [op] == [op];
      var (book1, p) := BookStep(book, op);
      assert BookRun(book1, []) == (book1, []);
      assert BookRun(book, ops + [op]) == (book1, [p] + []);
      assert BookRun(book, ops) == (book, []);
      assert [p] + [] == [] + [p];
    } else {
      var (book1, p) := BookStep(book, ops[0]);
      var (book2, ps) := BookRun(book1, ops[1..]);
      assert (ops + [op])[1..] == ops[1..] + [op];
      BookRunSnoc(book1, ops[1..], op);
      assert [p] + (ps + [BookStep(book2, op).1]) == ([p] + ps) + [BookStep(book2, op).1];
    }
  }

  lemma {:induction false} TameRunSnoc(book: Book, ops: seq<Op>, op: Op)
    requires BookShape(book) && TameRun(book, ops) && Aligned(op)
    requires forall k :: 0 <= k < |ops| ==> Aligned(ops[k])
    requires TameOp(BookRun(book, ops).0, op)
    ensures TameRun(book, ops + [op])
    decreases |ops|
  {
    if ops == [] {
      assert ([] + [op])[1..] == [];
    } else {
      assert (ops + [op])[1..] == ops[1..] + [op];
      TameRunSnoc(BookStep(book, ops[0]).0, ops[1..], op);
    }
  }

  lemma HistAcquire(w: World, h: Hist, book0: Book, t: nat)
    requires HistOk(w, h, book0) && BookShape(h.book) && h.holder == -1 && Enabled(w, Acquire(t))
             && TameOp(h.book, w.threads[t].phase.call)
    ensures HistOk(Next(w, Acquire(t)), Record(h, w, Acquire(t)), book0)
  {
    var call := w.threads[t].phase.call;
    assert h.calls[..|h.answers|] == h.calls;
    assert (h.calls + [call])[..|h.answers|] == h.calls;
    TameRunSnoc(book0, h.calls, call);
  }

  lemma HistLeave(w: World, h: Hist, book0: Book, t: nat)
    requires HistOk(w, h, book0) && BookShape(h.book) && h.holder == t && Enabled(w, Leave(t))
    requires w.threads[t].phase.answer == BookStep(h.book, w.threads[t].phase.call).1
    ensures HistOk(Next(w, Leave(t)), Record(h, w, Leave(t)), book0)
  {
    hide BookStep, TameRun, Surrendered;
    var call, n := w.threads[t].phase.call, |h.answers|;
    assert h.calls[..n] + [call] == h.calls;
    assert h.calls[..n + 1] == h.calls;
    BookRunSnoc(book0, h.calls[..n], call);
  }

  /** Events that finish no call leave the history as it is. */
  lemma HistSame(w: World, w': World, h: Hist, h': Hist, book0: Book)
    requires HistOk(w, h, book0)
    requires h'.holder == h.holder && h'.calls == h.calls && h'.answers == h.answers && h'.book == h.book
             && |w'.threads| == |w.threads|
    requires 0 <= h.holder < |w.threads| ==> w.threads[h.holder].phase != Out && w'.threads[h.holder].phase != Out
    requires 0 <= h.holder < |w.threads| ==> w'.threads[h.holder].phase.call == w.threads[h.holder].phase.call
    ensures HistOk(w', h', book0)
  {
  }

  // ---------- grants ----------

  lemma SurvivesRequest(book: Book, l: Layout, g: Grant)
    requires BookShape(book) && 1 <= l.align <= WORD && Backed(book, g)
    ensures Backed(BookAlloc(book, l).0, g)
  {
    hide Taken, Refilled;
    var i, c := ClassOf(l), ClassOf(g.l);
    KeptByRefill(book.ledger, i, BookBump(book, CHUNK_LAYOUT).1, c);
    if i < CLASSES && book.ledger.lists[i] != [] { KeptByTaken(book.ledger, i, c); }
    if i < CLASSES && book.ledger.lists[i] == []
      && BookRefill(book, i).0.ledger.lists[i] != [] { KeptByTaken(BookRefill(book, i).0.ledger, i, c); }
  }

  lemma KeptByTaken(ledger: Ledger, i: nat, c: nat)
    requires Shape(ledger) && i < CLASSES && ledger.lists[i] != []
    ensures c < CLASSES ==> ledger.live[c] <= Taken(ledger, i).live[c]
    ensures Taken(ledger, i).larges == ledger.larges
  {
  }

  lemma KeptByRefill(ledger: Ledger, i: nat, chunk: nat, c: nat)
    requires Shape(ledger)
    ensures i < CLASSES && c < CLASSES ==> Refilled(ledger, i, chunk).live[c] == ledger.live[c]
    ensures i < CLASSES ==> Refilled(ledger, i, chunk).larges == ledger.larges
  {
  }

  /** A block in use stays in use through every call that does not give it back. */
  lemma Survives(book: Book, call: Op, g: Grant)
    requires BookShape(book) && IsCall(call) && Backed(book, g)
    requires call.Release? ==> g.ptr != call.ptr
    ensures Backed(BookStep(book, call).0, g)
  {
    hide BookAlloc;
    if call.Request? { SurvivesRequest(book, call.l, g); }
  }

  /** What a call hands out is backed, and by a block that backed no grant before. */
  lemma GainedIsNew(book: Book, call: Op, answer: nat, g: Grant, k: Grant)
    requires BookShape(book) && IsCall(call) && answer == BookStep(book, call).1 && FreshAnswer(book, call, answer)
    requires call.Request? ==> ValidLayout(call.l) && call.l.size >= 1
    requires g in Gained(call, answer)
    ensures Backed(BookStep(book, call).0, g)
    ensures Backed(book, k) ==> k.ptr != g.ptr
  {
    var i := ClassOf(call.l);
    if i < CLASSES { ClassLeast(call.l, i); }
    if Backed(book, k) { BackedUse(book, k); }
  }

  lemma BackedUse(book: Book, g: Grant)
    requires BookShape(book) && Backed(book, g)
    ensures InUse(book.ledger, g.ptr, g.l.size) && InUse(book.ledger, g.ptr, 1)
  {
    if ClassOf(g.l) == CLASSES {
      var k: nat :| k < |book.ledger.larges| && book.ledger.larges[k] == (g.ptr, g.l.size);
    }
  }

  lemma TokensSame(threads: seq<Thread>, threads': seq<Thread>, book: Book)
    requires BookShape(book) && TokensOk(threads, book) && |threads'| == |threads|
    requires forall t :: 0 <= t < |threads| ==> Tokens(threads'[t]) == Tokens(threads[t])
    ensures TokensOk(threads', book)
  {
  }

  lemma TokensLeave(threads: seq<Thread>, book: Book, t: nat, call: Op, answer: nat)
    requires BookShape(book) && TokensOk(threads, book) && GivenUp(threads) && t < |threads|
             && threads[t].phase == Leaving(call, answer)
    requires IsCall(call) && answer == BookStep(book, call).1 && FreshAnswer(book, call, answer)
    requires call.Request? ==> ValidLayout(call.l) && call.l.size >= 1
    ensures TokensOk(threads[t := Thread(Out, threads[t].grants + Gained(call, answer))], BookStep(book, call).0)
  {
    hide Backed, FreshAnswer;
    var book' := BookStep(book, call).0;
    var threads' := threads[t := Thread(Out, threads[t].grants + Gained(call, answer))];
    forall u, g | 0 <= u < |threads| && g in Tokens(threads'[u])
      ensures Backed(book', g)
      ensures g in Tokens(threads[u]) || (u == t && g in Gained(call, answer))
    {
      if g in Tokens(threads[u]) {
        HeldSurvives(threads, book, t, call, u, g);
      } else {
        GainedIsNew(book, call, answer, g, g);
      }
    }
    forall u, v, g, k | 0 <= u < |threads| && 0 <= v < |threads| && g in Tokens(threads'[u])
      && k in Tokens(threads'[v]) && g.ptr == k.ptr
      ensures u == v && g == k
    {
      if g in Gained(call, answer) && k in Tokens(threads[v]) { GainedIsNew(book, call, answer, g, k); }
      if k in Gained(call, answer) && g in Tokens(threads[u]) { GainedIsNew(book, call, answer, k, g); }
    }
  }

  /** What a thread holds survives the call that another thread, or the same one, has under way. */
  lemma HeldSurvives(threads: seq<Thread>, book: Book, t: nat, call: Op, u: nat, g: Grant)
    requires BookShape(book) && TokensOk(threads, book) && GivenUp(threads) && t < |threads|
    requires !threads[t].phase.Out? && threads[t].phase.call == call
    requires IsCall(call) && u < |threads| && g in Tokens(threads[u]) && (u == t ==> g in threads[t].grants)
    ensures Backed(BookStep(book, call).0, g)
  {
    if call.Release? && call.ptr != 0 {
      assert Grant(call.ptr, call.l) in Surrendered(threads[t].phase.call);
    }
    Survives(book, call, g);
  }

  // ---------- every event keeps the invariant ----------

  lemma BeginKeeps(w: World, h: Hist, book0: Book, t: nat, call: Op)
    requires Inv(w, h, book0) && Enabled(w, Begin(t, call))
    ensures Inv(Next(w, Begin(t, call)), h, book0)
  {
    hide PhaseOk, TameRun, BookRun, Backed;
    var w' := Next(w, Begin(t, call));
    BoundsAgree(w, h);
    TokensSame(w.threads, w'.threads, h.book);
    HistSame(w, w', h, h, book0);
  }

  lemma BoundsAgree(w: World, h: Hist)
    requires h.holder < |w.threads| && PhaseOk(w.s, h.book, HolderPhase(w, h.holder), h.left, h.partial)
    ensures w.s.heapEnd == h.book.end
  {
  }

  /** With the lock free, a call that was legal to make is one the book allows. */
  lemma AcquireTame(w: World, h: Hist, t: nat)
    requires h.holder == -1 && t < |w.threads| && w.threads[t].phase.Spinning?
    requires PhaseOk(w.s, h.book, Out, h.left, h.partial) && CallsOk(w, h.book.end) && TokensOk(w.threads, h.book)
    ensures TameOp(h.book, w.threads[t].phase.call)
  {
    var call := w.threads[t].phase.call;
    assert CallOk(h.book.end, w.threads[t].phase);
    if call.Release? && call.ptr != 0 {
      assert Grant(call.ptr, call.l) in Tokens(w.threads[t]);
      assert Backed(h.book, Grant(call.ptr, call.l));
    }
  }

  lemma AcquireKeeps(w: World, h: Hist, book0: Book, t: nat)
    requires Inv(w, h, book0) && Enabled(w, Acquire(t))
    ensures Inv(Next(w, Acquire(t)), Record(h, w, Acquire(t)), book0)
  {
    AcquireTame(w, h, t);
    hide TameRun, BookRun, Backed, TameOp, Agrees, Counted;
    var w' := Next(w, Acquire(t));
    TokensSame(w.threads, w'.threads, h.book);
    HistAcquire(w, h, book0, t);
  }

  lemma WorkKeeps(w: World, h: Hist, book0: Book, t: nat)
    requires Inv(w, h, book0) && Enabled(w, Work(t))
    ensures Inv(Next(w, Work(t)), Record(h, w, Work(t)), book0)
  {
    hide PhaseOk, TameRun, BookRun, Backed, Body;
    var w', h' := Next(w, Work(t)), Record(h, w, Work(t));
    BodyKeeps(w.s, h.book, w.threads[t].phase, h.left, h.partial);
    TokensSame(w.threads, w'.threads, h.book);
    HistSame(w, w', h, h', book0);
  }

  lemma LeaveKeeps(w: World, h: Hist, book0: Book, t: nat)
    requires Inv(w, h, book0) && Enabled(w, Leave(t))
    ensures Inv(Next(w, Leave(t)), Record(h, w, Leave(t)), book0)
  {
    var call, answer := w.threads[t].phase.call, w.threads[t].phase.answer;
    assert CallOk(h.book.end, w.threads[t].phase);
    hide TameRun, BookRun, Backed, TameOp, Agrees, Counted, BookStep, FreshAnswer;
    TokensLeave(w.threads, h.book, t, call, answer);
    HistLeave(w, h, book0, t);
  }

  lemma StoreKeeps(w: World, h: Hist, book0: Book, t: nat, a: nat, bytes: seq<byte>)
    requires Inv(w, h, book0) && Enabled(w, Store(t, a, bytes))
    ensures Inv(Next(w, Store(t, a, bytes)), h, book0)
  {
    var g :| g in w.threads[t].grants && Covers(g, a, |bytes|);
    hide TameRun, BookRun, PhaseOk, Backed, TokensOk, GivenUp, UsedThroughout, Poke, Covers, HistOk, CallsOk;
    GoodHolder(w, h);
    StoreUsed(w, h, t, a, |bytes|, g);
    WriteKeeps(w.s, h.book, HolderPhase(w, h.holder), h.left, h.partial, a, bytes);
    OnlyMemory(w, Poke(w.s, a, bytes), h, book0);
  }

  /** When the lock and the threads are as before, only the memory has to be looked at again. */
  lemma OnlyMemory(w: World, s': SlabState, h: Hist, book0: Book)
    requires Inv(w, h, book0) && PhaseOk(s', h.book, HolderPhase(w, h.holder), h.left, h.partial)
    ensures Inv(w.(s := s'), h, book0)
  {
    hide TameRun, BookRun, PhaseOk, Backed, TokensOk, GivenUp, CallOk;
    HistSame(w, w.(s := s'), h, h, book0);
  }

  lemma BackedCovers(book: Book, g: Grant, a: nat, n: nat)
    requires BookShape(book) && Backed(book, g) && Covers(g, a, n)
    ensures InUse(book.ledger, a, n)
  {
    BackedUse(book, g);
  }

  /** A thread's block stays in use while another thread's call is under way. */
  lemma StoreUsed(w: World, h: Hist, t: nat, a: nat, n: nat, g: Grant)
    requires BookShape(h.book) && LockOk(w, h.holder) && TokensOk(w.threads, h.book) && GivenUp(w.threads)
    requires t < |w.threads| && w.threads[t].phase.Out? && g in w.threads[t].grants && Covers(g, a, n)
    requires GoodPhase(HolderPhase(w, h.holder))
    ensures UsedThroughout(h.book, HolderPhase(w, h.holder), a, n)
  {
    assert g in Tokens(w.threads[t]);
    BackedCovers(h.book, g, a, n);
    var ph := HolderPhase(w, h.holder);
    if ph.Leaving? {
      HeldSurvives(w.threads, h.book, h.holder, ph.call, t, g);
      BackedCovers(BookStep(h.book, ph.call).0, g, a, n);
    }
  }

  lemma TokensGive(threads: seq<Thread>, book: Book, t: nat, u: nat, g: Grant)
    requires BookShape(book) && TokensOk(threads, book) && t < |threads| && u < |threads| && t != u
             && threads[t].phase.Out? && g in threads[t].grants
    ensures TokensOk(Moved(threads, t, u, g), book)
  {
    hide Backed, BookShape;
    var threads' := Moved(threads, t, u, g);
    assert g in Tokens(threads[t]);
    forall v | 0 <= v < |threads|
      ensures Tokens(threads'[v])
              == if v == t then Tokens(threads[t]) - {g}
                 else if v == u then Tokens(threads[u]) + {g}
                 else Tokens(threads[v])
    {
    }
  }

  lemma GiveKeeps(w: World, h: Hist, book0: Book, t: nat, u: nat, g: Grant)
    requires Inv(w, h, book0) && Enabled(w, Give(t, u, g))
    ensures Inv(Next(w, Give(t, u, g)), h, book0)
  {
    hide TameRun, BookRun, PhaseOk, Backed;
    if t != u {
      assert g in Tokens(w.threads[t]);
      TokensGive(w.threads, h.book, t, u, g);
      HistSame(w, Next(w, Give(t, u, g)), h, h, book0);
    }
  }

  /** Every event, of whatever thread, keeps the invariant. */
  lemma NextKeeps(w: World, h: Hist, book0: Book, e: Event)
    requires Inv(w, h, book0) && Enabled(w, e)
    ensures Inv(Next(w, e), Record(h, w, e), book0)
  {
    hide Inv, Enabled, Next;
    match e
    case Begin(t, call) => BeginKeeps(w, h, book0, t, call);
    case Spin(t) => SpinKeeps(w, h, book0, t);
    case Acquire(t) => AcquireKeeps(w, h, book0, t);
    case Work(t) => WorkKeeps(w, h, book0, t);
    case Leave(t) => LeaveKeeps(w, h, book0, t);
    case Store(t, a, bytes) => StoreKeeps(w, h, book0, t, a, bytes);
    case Give(t, u, g) => GiveKeeps(w, h, book0, t, u, g);
  }

  lemma SpinKeeps(w: World, h: Hist, book0: Book, t: nat)
    requires Inv(w, h, book0) && Enabled(w, Spin(t))
    ensures Next(w, Spin(t)) == w
  {
  }

  // ---------- executions ----------

  ghost predicate Possible(w: World, events: seq<Event>)
    decreases |events|
  {
    events == [] || (Enabled(w, events[0]) && Possible(Next(w, events[0]), events[1..]))
  }

  ghost function Execute(w: World, events: seq<Event>): World
    requires Possible(w, events)
    decreases |events|
  {
    if events == [] then w else Execute(Next(w, events[0]), events[1..])
  }

  /** The history of an execution. */
  ghost function Recorded(h: Hist, w: World, events: seq<Event>): (r: Hist)
    requires Possible(w, events) && BookShape(h.book)
    decreases |events|
  {
    if events == [] then h else Recorded(Record(h, w, events[0]), Next(w, events[0]), events[1..])
  }

  lemma {:induction false} ExecutionKeeps(w: World, h: Hist, book0: Book, events: seq<Event>)
    requires Inv(w, h, book0) && Possible(w, events)
    ensures BookShape(h.book) && Inv(Execute(w, events), Recorded(h, w, events), book0)
    decreases |events|
  {
    if events != [] {
      NextKeeps(w, h, book0, events[0]);
      hide Inv, Enabled, Next;
      ExecutionKeeps(Next(w, events[0]), Record(h, w, events[0]), book0, events[1..]);
    }
  }

  /** `n` threads before an initialized allocator, none of them holding anything. */
  function Start(mem: seq<byte>, start: nat, size: nat, n: nat): World {
    World(false, Started(mem, start, size), seq(n, _ => Thread(Out, {})))
  }

  ghost function NoHist(start: nat, size: nat): (h: Hist)
    ensures BookShape(h.book)
  {
    Hist(EmptyBook(start, size), -1, 0, [], [], [])
  }

  lemma StartInv(mem: seq<byte>, start: nat, size: nat, n: nat)
    requires GoodRegion(mem, start, size)
    ensures Inv(Start(mem, start, size, n), NoHist(start, size), EmptyBook(start, size))
  {
    StartMatches(mem, start, size);
    hide Agrees, Counted, EmptyBook;
    assert HistOk(Start(mem, start, size, n), NoHist(start, size), EmptyBook(start, size));
  }

  // ---------- what every execution satisfies ----------

  /** At most one guard exists, and `locked` is true exactly when one does. */
  lemma MutualExclusion(mem: seq<byte>, start: nat, size: nat, n: nat, events: seq<Event>)
    requires GoodRegion(mem, start, size) && Possible(Start(mem, start, size, n), events)
    ensures var w := Execute(Start(mem, start, size, n), events);
            && (forall t, u ::
                  0 <= t < |w.threads| && 0 <= u < |w.threads| && Holds(w.threads[t].phase) && Holds(w.threads[u].phase)
                  ==> t == u)
            && (w.locked <==> exists t :: 0 <= t < |w.threads| && Holds(w.threads[t].phase))
  {
    StartInv(mem, start, size, n);
    ExecutionKeeps(Start(mem, start, size, n), NoHist(start, size), EmptyBook(start, size), events);
    var w, h := Execute(Start(mem, start, size, n), events),
      Recorded(NoHist(start, size), Start(mem, start, size, n), events);
    assert LockOk(w, h.holder);
    if w.locked { assert Holds(w.threads[h.holder].phase); }
  }

  /** The answers of all calls that have returned are those of one sequential run of the allocator, in the order in
      which the lock was acquired and with no client writes at all. */
  lemma Linearized(mem: seq<byte>, start: nat, size: nat, n: nat, events: seq<Event>)
    requires GoodRegion(mem, start, size) && Possible(Start(mem, start, size, n), events)
    ensures var h := Recorded(NoHist(start, size), Start(mem, start, size, n), events);
            && |h.answers| <= |h.calls| <= |h.answers| + 1
            && (forall k :: 0 <= k < |h.calls| ==> Aligned(h.calls[k]))
            && h.answers == Run(Started(mem, start, size), h.calls[..|h.answers|]).1
  {
    StartInv(mem, start, size, n);
    ExecutionKeeps(Start(mem, start, size, n), NoHist(start, size), EmptyBook(start, size), events);
    var h := Recorded(NoHist(start, size), Start(mem, start, size, n), events);
    var book0 := EmptyBook(start, size);
    TamePrefix(book0, h.calls, |h.answers|);
    StartMatches(mem, start, size);
    RunMatches(Started(mem, start, size), book0, h.calls[..|h.answers|]);
  }

  lemma {:induction false} TamePrefix(book: Book, ops: seq<Op>, k: nat)
    requires BookShape(book) && TameRun(book, ops) && k <= |ops|
    ensures TameRun(book, ops[..k])
    decreases k
  {
    if k > 0 {
      TamePrefix(BookStep(book, ops[0]).0, ops[1..], k - 1);
      assert ops[..k][1..] == ops[1..][..k - 1];
    }
  }

  /** The book that the memory agrees with in the middle of a call. */
  ghost function Midcall(book: Book, ph: Phase, partial: seq<nat>): (r: Book)
    requires BookShape(book) && GoodPhase(ph)
    ensures BookShape(r)
  {
    match ph
    case Carving(call, _, _) => Midway(book, ClassOf(call.l), partial)
    case Popping(call) => Filled(book, ClassOf(call.l))
    case Leaving(call, _) => BookStep(book, call).0
    case _ => book
  }

  lemma BackedMidcall(w: World, h: Hist, t: nat, g: Grant)
    requires BookShape(h.book) && LockOk(w, h.holder) && TokensOk(w.threads, h.book) && GivenUp(w.threads)
    requires t < |w.threads| && g in w.threads[t].grants && GoodPhase(HolderPhase(w, h.holder))
    ensures Backed(h.book, g) && Backed(Midcall(h.book, HolderPhase(w, h.holder), h.partial), g)
  {
    assert g in Tokens(w.threads[t]);
    var ph := HolderPhase(w, h.holder);
    if ph.Leaving? {
      HeldSurvives(w.threads, h.book, h.holder, ph.call, t, g);
    } else if ph.Popping? {
      KeptByRefill(h.book.ledger, ClassOf(ph.call.l), BookBump(h.book, CHUNK_LAYOUT).1, ClassOf(g.l));
    }
  }

  lemma AgreesMidcall(s: SlabState, book: Book, ph: Phase, left: nat, partial: seq<nat>)
    requires PhaseOk(s, book, ph, left, partial)
    ensures Agrees(s, Midcall(book, ph, partial)) && Midcall(book, ph, partial).start == book.start
            && Midcall(book, ph, partial).end == book.end
  {
    hide Agrees;
  }

  /** Two backed grants at different addresses do not overlap. */
  lemma BackedApart(s: SlabState, book: Book, g: Grant, k: Grant)
    requires Agrees(s, book) && Backed(book, g) && Backed(book, k) && g.ptr != k.ptr
    ensures Apart(g.ptr, g.l.size, k.ptr, k.l.size)
  {
    var i, j := ClassOf(g.l), ClassOf(k.l);
    if i < CLASSES { assert IsBlock(book.ledger, i, g.ptr); }
    if j < CLASSES { assert IsBlock(book.ledger, j, k.ptr); }
    if i < CLASSES && j < CLASSES { assert Apart(g.ptr, SizeOf(i), k.ptr, SizeOf(j)); }
  }

  /** Blocks in the hands of different threads, and different blocks of one thread, are in the heap and apart. */
  lemma GrantsApart(mem: seq<byte>, start: nat, size: nat, n: nat, events: seq<Event>, t: nat, u: nat, g: Grant,
                    k: Grant)
    requires GoodRegion(mem, start, size) && Possible(Start(mem, start, size, n), events)
    requires var w := Execute(Start(mem, start, size, n), events);
             t < |w.threads| && u < |w.threads| && g in w.threads[t].grants && k in w.threads[u].grants
               && (t != u || g != k)
    ensures Apart(g.ptr, g.l.size, k.ptr, k.l.size)
    ensures g.ptr != 0 && start <= g.ptr && g.ptr + g.l.size <= start + size
  {
    StartInv(mem, start, size, n);
    ExecutionKeeps(Start(mem, start, size, n), NoHist(start, size), EmptyBook(start, size), events);
    var w, h := Execute(Start(mem, start, size, n), events),
      Recorded(NoHist(start, size), Start(mem, start, size, n), events);
    GrantsApartNow(w, h, EmptyBook(start, size), t, u, g, k);
  }

  lemma GrantsApartNow(w: World, h: Hist, book0: Book, t: nat, u: nat, g: Grant, k: Grant)
    requires Inv(w, h, book0) && t < |w.threads| && u < |w.threads| && g in w.threads[t].grants
             && k in w.threads[u].grants && (t != u || g != k)
    ensures Apart(g.ptr, g.l.size, k.ptr, k.l.size)
    ensures g.ptr != 0 && book0.start <= g.ptr && g.ptr + g.l.size <= book0.end
  {
    assert h.book.start == book0.start && h.book.end == book0.end;
    hide TameRun, BookRun;
    assert g in Tokens(w.threads[t]) && k in Tokens(w.threads[u]) && Backed(h.book, g);
    hide PhaseOk;
    var ph := HolderPhase(w, h.holder);
    GoodHolder(w, h);
    var current := Midcall(h.book, ph, h.partial);
    BackedMidcall(w, h, t, g);
    BackedMidcall(w, h, u, k);
    AgreesMidcall(w.s, h.book, ph, h.left, h.partial);
    BackedApart(w.s, current, g, k);
    BackedUse(current, g);
    UseIsInside(w.s, current.ledger, g.ptr, g.l.size);
  }

  lemma GoodHolder(w: World, h: Hist)
    requires h.holder < |w.threads| && PhaseOk(w.s, h.book, HolderPhase(w, h.holder), h.left, h.partial)
    ensures BookShape(h.book) && GoodPhase(HolderPhase(w, h.holder))
  {
  }

  // ---------- whose bytes they are ----------

  lemma CarveBytesKept(s: SlabState, book: Book, i: nat, off: nat, end: nat, left: nat, partial: seq<nat>, a: nat,
                       n: nat, k: nat)
    requires BookShape(book) && i < CLASSES && CarveState(s, book, i, off, end, left, partial) && left > 0
    requires InUse(book.ledger, a, n) && a <= k < a + n
    ensures k < |s.mem| && Push(s, i, off).mem[k] == s.mem[k]
  {
    var midway := Midway(book, i, partial);
    assert InUse(midway.ledger, a, n);
    UseIsInside(s, midway.ledger, a, n);
    FreshLarge(s, midway.ledger, off, end - off, a, n);
    PushBytes(s, i, off, k);
  }

  lemma PopBytesKept(s: SlabState, book: Book, i: nat, a: nat, n: nat, k: nat)
    requires BookShape(book) && i < CLASSES && PopState(s, book, i) && InUse(book.ledger, a, n) && a <= k < a + n
    ensures k < |s.mem| && Pop(s, i).0.mem == s.mem
  {
    RefillKeepsUse(book, i, a, n);
    UseIsInside(s, Filled(book, i).ledger, a, n);
  }

  lemma EnterBytesKept(s: SlabState, book: Book, call: Op, a: nat, n: nat, k: nat)
    requires Matches(s, book) && IsCall(call) && TameOp(book, call)
    requires InUse(book.ledger, a, n) && InUse(BookStep(book, call).0.ledger, a, n) && a <= k < a + n
    ensures k < |s.mem| && Body(s, Entered(call)).0.mem[k] == s.mem[k]
  {
    UseIsInside(s, book.ledger, a, n);
    match call
    case Release(ptr, l) => DeallocBytes(s, book, ptr, l, a, n, k);
    case Request(l) =>
      if ClassOf(l) < CLASSES {
        ChunkStart(s.bump);
        BumpBytes(s, CHUNK_LAYOUT, k);
      } else {
        LargeBytes(s, l, k);
      }
  }

  /** The allocator's own steps leave every byte of every block in use as it is. */
  lemma WorkBytesKept(s: SlabState, book: Book, ph: Phase, left: nat, partial: seq<nat>, a: nat, n: nat, k: nat)
    requires BookShape(book) && GoodPhase(ph) && Holds(ph) && !ph.Leaving? && PhaseOk(s, book, ph, left, partial)
    requires InUse(book.ledger, a, n) && InUse(BookStep(book, ph.call).0.ledger, a, n) && a <= k < a + n
    ensures k < |s.mem| && Body(s, ph).0.mem[k] == s.mem[k]
  {
    match ph
    case Entered(call) => EnterBytesKept(s, book, call, a, n, k);
    case Carving(call, off, end) =>
      var i := ClassOf(call.l);
      ClassFacts(i);
      CarvingRoom(s, book, i, off, end, left, partial);
      hide CarveState, InUse;
      if left > 0 { CarveBytesKept(s, book, i, off, end, left, partial, a, n, k); }
        else { CarveInside(s, book, i, off, end, left, partial, a, n); }
    case Popping(call) => PopBytesKept(s, book, ClassOf(call.l), a, n, k);
  }

  lemma CarveInside(s: SlabState, book: Book, i: nat, off: nat, end: nat, left: nat, partial: seq<nat>, a: nat, n: nat)
    requires BookShape(book) && i < CLASSES && CarveState(s, book, i, off, end, left, partial)
             && InUse(book.ledger, a, n)
    ensures a + n <= |s.mem|
  {
    assert InUse(Midway(book, i, partial).ledger, a, n);
    UseIsInside(s, Midway(book, i, partial).ledger, a, n);
  }

  lemma HeldInside(w: World, h: Hist, book0: Book, t: nat, g: Grant)
    requires Inv(w, h, book0) && t < |w.threads| && g in w.threads[t].grants
    ensures g.ptr + g.l.size <= |w.s.mem|
  {
    hide TameRun, BookRun, Backed;
    GoodHolder(w, h);
    hide PhaseOk;
    var ph := HolderPhase(w, h.holder);
    var current := Midcall(h.book, ph, h.partial);
    BackedMidcall(w, h, t, g);
    AgreesMidcall(w.s, h.book, ph, h.left, h.partial);
    BackedUse(current, g);
    UseIsInside(w.s, current.ledger, g.ptr, g.l.size);
  }

  lemma HeldThroughWork(w: World, h: Hist, book0: Book, u: nat, t: nat, g: Grant, k: nat)
    requires u < |w.threads| && GoodPhase(w.threads[u].phase) && Holds(w.threads[u].phase)
    requires Inv(w, h, book0) && Enabled(w, Work(u)) && t < |w.threads| && g in w.threads[t].grants
             && g.ptr <= k < g.ptr + g.l.size
    ensures k < |w.s.mem| && Body(w.s, w.threads[u].phase).0.mem[k] == w.s.mem[k]
  {
    hide TameRun, BookRun, Backed, PhaseOk, Body;
    GoodHolder(w, h);
    assert g in Tokens(w.threads[t]);
    var call := w.threads[u].phase.call;
    HeldSurvives(w.threads, h.book, u, call, t, g);
    BackedUse(h.book, g);
    BackedUse(BookStep(h.book, call).0, g);
    WorkBytesKept(w.s, h.book, w.threads[u].phase, h.left, h.partial, g.ptr, g.l.size, k);
  }

  lemma HeldThroughStore(w: World, h: Hist, book0: Book, e: Event, t: nat, g: Grant, k: nat)
    requires Inv(w, h, book0) && e.Store? && Enabled(w, e) && e.t != t
    requires t < |w.threads| && g in w.threads[t].grants && g.ptr <= k < g.ptr + g.l.size
    ensures k < |w.s.mem| && Poke(w.s, e.a, e.bytes).mem[k] == w.s.mem[k]
  {
    var o :| o in w.threads[e.t].grants && Covers(o, e.a, |e.bytes|);
    HeldInside(w, h, book0, t, g);
    GrantsApartNow(w, h, book0, t, e.t, g, o);
  }

  lemma SameLength(w: World, e: Event)
    requires Enabled(w, e)
    ensures |Next(w, e).s.mem| == |w.s.mem|
  {
    hide AlignUp, ZeroFill, SetWord, ClassOf, LegalCall, Covers, Word;
  }

  /** A byte of a block that a thread holds changes only when that thread writes it: no call, of whatever thread and
      however far it is, and no other thread's write touches it. */
  lemma HeldBytesKept(w: World, h: Hist, book0: Book, e: Event, t: nat, g: Grant, k: nat)
    requires Inv(w, h, book0) && Enabled(w, e) && t < |w.threads| && g in w.threads[t].grants
             && g.ptr <= k < g.ptr + g.l.size
    requires e.Store? ==> e.t != t
    ensures k < |w.s.mem| && |Next(w, e).s.mem| == |w.s.mem| && Next(w, e).s.mem[k] == w.s.mem[k]
  {
    HeldInside(w, h, book0, t, g);
    SameLength(w, e);
    if e.Work? {
      HeldThroughWork(w, h, book0, e.t, t, g, k);
    } else if e.Store? {
      HeldThroughStore(w, h, book0, e, t, g, k);
    }
  }
}

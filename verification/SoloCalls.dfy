/** Calls that nobody interrupts: the lock lets a waiting thread in when it is free, and a call always comes to its
    end. */
module SoloCalls {
  import opened Bits
  import opened Slab
  import opened SlabSteps
  import opened SlabRuns
  import opened LockSteps
  import opened Lock

  // ---------- who may move ----------

  /** A waiting thread gets in exactly when the lock is free, and spins exactly when it is not; whoever is inside can
      always move, and so can whoever is outside and makes a legal call. */
  lemma WhoMoves(w: World, t: nat, call: Op)
    requires t < |w.threads| && GoodPhase(w.threads[t].phase)
    ensures var ph := w.threads[t].phase;
            && (ph.Spinning? ==> (Enabled(w, Acquire(t)) <==> !w.locked) && (Enabled(w, Spin(t)) <==> w.locked))
            && (Holds(ph) ==> (Enabled(w, Work(t)) <==> !ph.Leaving?) && (Enabled(w, Leave(t)) <==> ph.Leaving?))
            && (ph.Out? ==> (Enabled(w, Begin(t, call)) <==> LegalCall(w, w.threads[t], call)))
  {
  }

  /** Which calls are legal: a request of at least one byte with an alignment that is a power of two and leaves room at
      the top of the address space; and giving back null, or a block that the thread holds. */
  lemma LegalCalls(w: World, th: Thread, l: Layout, ptr: nat, k: nat)
    requires 1 <= l.size < WORD && k < 64 && l.align == Pow2(k)
    ensures w.s.heapEnd + l.align <= WORD ==> LegalCall(w, th, Request(l))
    ensures ptr == 0 || Grant(ptr, l) in th.grants ==> LegalCall(w, th, Release(ptr, l))
  {
    assert AlignBits(k, l.align);
    LayoutFacts(l);
  }

  // ---------- one call from its beginning to its end ----------

  lemma {:induction false} ExecuteConcat(w: World, a: seq<Event>, b: seq<Event>)
    requires Possible(w, a) && Possible(Execute(w, a), b)
    ensures Possible(w, a + b) && Execute(w, a + b) == Execute(Execute(w, a), b)
    decreases |a|
  {
    hide Enabled, Next;
    if a == [] {
      assert a + b == b;
    } else {
      assert (a + b)[1..] == a[1..] + b;
      ExecuteConcat(Next(w, a[0]), a[1..], b);
    }
  }

  lemma OneEvent(w: World, e: Event)
    requires Enabled(w, e)
    ensures Possible(w, [e]) && Execute(w, [e]) == Next(w, e)
  {
    hide Enabled, Next;
    assert [e][1..] == [];
    assert Execute(Next(w, e), []) == Next(w, e);
  }

  /** The world with other memory and lists, and thread `t` elsewhere in its call. */
  function At(w: World, t: nat, s: SlabState, ph: Phase): World
    requires t < |w.threads|
  {
    w.(s := s, threads := w.threads[t := w.threads[t].(phase := ph)])
  }

  /** Thread `t` alone gets from one world to the other. */
  ghost predicate GetsTo(w: World, t: nat, w': World) {
    exists events :: Alone(events, t) && Possible(w, events) && Execute(w, events) == w'
  }

  ghost predicate Alone(events: seq<Event>, t: nat) {
    forall i :: 0 <= i < |events| ==> events[i].t == t
  }

  lemma GetsOneStep(w: World, t: nat, e: Event)
    requires Enabled(w, e) && e.t == t
    ensures GetsTo(w, t, Next(w, e))
  {
    OneEvent(w, e);
    assert Alone([e], t);
  }

  lemma GetsFurther(w: World, t: nat, w1: World, w2: World)
    requires GetsTo(w, t, w1) && GetsTo(w1, t, w2)
    ensures GetsTo(w, t, w2)
  {
    var a :| Alone(a, t) && Possible(w, a) && Execute(w, a) == w1;
    var b :| Alone(b, t) && Possible(w1, b) && Execute(w1, b) == w2;
    ExecuteConcat(w, a, b);
    assert Alone(a + b, t);
  }

  lemma GetsNowhere(w: World, t: nat)
    ensures GetsTo(w, t, w)
  {
    assert Alone([], t) && Possible(w, []) && Execute(w, []) == w;
  }

  /** One step of the allocator's code. */
  lemma WorkStep(w: World, t: nat, s: SlabState, ph: Phase)
    requires t < |w.threads| && GoodPhase(ph) && Holds(ph) && !ph.Leaving?
    ensures GetsTo(At(w, t, s, ph), t, At(w, t, Body(s, ph).0, Body(s, ph).1))
  {
    var here := At(w, t, s, ph);
    assert Enabled(here, Work(t));
    assert Next(here, Work(t)) == At(w, t, Body(s, ph).0, Body(s, ph).1);
    GetsOneStep(here, t, Work(t));
  }

  /** The carving loop ends, with the list that `Carve` makes. */
  lemma {:induction false} CarvingEnds(w: World, t: nat, s: SlabState, call: Op, off: nat, end: nat)
    requires t < |w.threads| && IsCall(call) && call.Request? && ClassOf(call.l) < CLASSES
    ensures GetsTo(At(w, t, s, Carving(call, off, end)), t,
                   At(w, t, Carve(s, ClassOf(call.l), SIZE_CLASSES[ClassOf(call.l)], off, end), Popping(call)))
    decreases end - off
  {
    var i := ClassOf(call.l);
    var size := SIZE_CLASSES[i];
    WorkStep(w, t, s, Carving(call, off, end));
    if off + size <= end {
      CarvingEnds(w, t, Push(s, i, off), call, off + size, end);
      GetsFurther(At(w, t, s, Carving(call, off, end)), t, At(w, t, Push(s, i, off), Carving(call, off + size, end)),
                  At(w, t, Carve(s, i, size, off, end), Popping(call)));
    }
  }

  lemma PoppingEnds(w: World, t: nat, s: SlabState, call: Op)
    requires t < |w.threads| && IsCall(call) && call.Request? && ClassOf(call.l) < CLASSES
    ensures GetsTo(At(w, t, s, Popping(call)), t,
                   At(w, t, Pop(s, ClassOf(call.l)).0, Leaving(call, Pop(s, ClassOf(call.l)).1)))
  {
    WorkStep(w, t, s, Popping(call));
  }

  /** From the moment it has the lock, a call gets to its end, with the memory and the answer of the whole operation. */
  lemma CallEnds(w: World, t: nat, s: SlabState, call: Op)
    requires t < |w.threads| && IsCall(call)
    ensures GetsTo(At(w, t, s, Entered(call)), t, At(w, t, Step(s, call).0, Leaving(call, Step(s, call).1)))
  {
    WorkStep(w, t, s, Entered(call));
    if call.Request? && s.initialized && ClassOf(call.l) < CLASSES {
      SmallCallEnds(w, t, s, call);
    }
  }

  lemma SmallCallEnds(w: World, t: nat, s: SlabState, call: Op)
    requires t < |w.threads| && IsCall(call) && call.Request? && s.initialized && ClassOf(call.l) < CLASSES
    ensures GetsTo(At(w, t, s, Entered(call)), t, At(w, t, Step(s, call).0, Leaving(call, Step(s, call).1)))
  {
    var i := ClassOf(call.l);
    var here, there := At(w, t, s, Entered(call)), At(w, t, Step(s, call).0, Leaving(call, Step(s, call).1));
    WorkStep(w, t, s, Entered(call));
    if s.heads[i] != 0 {
      PoppingEnds(w, t, s, call);
      GetsFurther(here, t, At(w, t, s, Popping(call)), there);
    } else {
      var (s1, chunk) := AllocFromBump(s, CHUNK_LAYOUT);
      if chunk != 0 {
        var s2 := Carve(s1, i, SIZE_CLASSES[i], chunk, chunk + CHUNK_SIZE);
        CarvingEnds(w, t, s1, call, chunk, chunk + CHUNK_SIZE);
        PoppingEnds(w, t, s2, call);
        GetsFurther(here, t, At(w, t, s1, Carving(call, chunk, chunk + CHUNK_SIZE)), At(w, t, s2, Popping(call)));
        GetsFurther(here, t, At(w, t, s2, Popping(call)), there);
      }
    }
  }

  /** The world after a call of thread `t` that nobody interrupted: memory and lists of the sequential operation, the
      lock free again, and the block among the thread's blocks, or no longer. */
  ghost function AfterCall(w: World, t: nat, call: Op): World
    requires t < |w.threads| && Aligned(call)
  {
    var grants := w.threads[t].grants;
    var answer := Step(w.s, call).1;
    var mine := match call
      case Request(l) => if answer == 0 then grants else grants + {Grant(answer, l)}
      case Release(ptr, l) => if ptr == 0 then grants else grants - {Grant(ptr, l)}
      case Write(_, _) => grants;
    World(false, Step(w.s, call).0, w.threads[t := Thread(Out, mine)])
  }

  /** When the lock is free, a legal call of any thread can run to its end at once, and does what the operation does. */
  lemma CallCompletes(w: World, t: nat, call: Op)
    requires t < |w.threads| && !w.locked && w.threads[t].phase.Out? && LegalCall(w, w.threads[t], call)
    ensures GetsTo(w, t, AfterCall(w, t, call))
  {
    var s, s' := w.s, Step(w.s, call).0;
    var answer := Step(w.s, call).1;
    var w1 := Next(w, Begin(t, call));
    var inside := w1.(locked := true);
    GetsOneStep(w, t, Begin(t, call));
    GetsOneStep(w1, t, Acquire(t));
    assert Next(w1, Acquire(t)) == At(inside, t, s, Entered(call));
    GetsFurther(w, t, w1, At(inside, t, s, Entered(call)));
    CallEnds(inside, t, s, call);
    GetsFurther(w, t, At(inside, t, s, Entered(call)), At(inside, t, s', Leaving(call, answer)));
    LeavesWith(w, t, call);
    GetsFurther(w, t, At(inside, t, s', Leaving(call, answer)), AfterCall(w, t, call));
  }

  lemma LeavesWith(w: World, t: nat, call: Op)
    requires t < |w.threads| && !w.locked && w.threads[t].phase.Out? && LegalCall(w, w.threads[t], call)
    ensures var inside := Next(w, Begin(t, call)).(locked := true);
            GetsTo(At(inside, t, Step(w.s, call).0, Leaving(call, Step(w.s, call).1)), t, AfterCall(w, t, call))
  {
    var inside := Next(w, Begin(t, call)).(locked := true);
    var last := At(inside, t, Step(w.s, call).0, Leaving(call, Step(w.s, call).1));
    var answer := Step(w.s, call).1;
    assert Enabled(last, Leave(t));
    var grants := w.threads[t].grants;
    assert AfterCall(w, t, call).threads[t].grants == (grants - Surrendered(call)) + Gained(call, answer);
    assert Next(last, Leave(t)).threads == AfterCall(w, t, call).threads;
    assert Next(last, Leave(t)) == AfterCall(w, t, call);
    GetsOneStep(last, t, Leave(t));
  }
}

/** The slab allocator: ten intrusive free lists over a bump pointer, in an explicit memory. */
module Slab {
  import opened Bytes
  import opened Bits

  const CHUNK_SIZE: nat := 4096
  const SIZE_CLASSES: seq<nat> := [8, 16, 32, 64, 128, 256, 512, 1024, 2048, 4096]
  const CLASSES: nat := 10

  // ---------- memory ----------

  /** The 8-byte little-endian word at an address, as a free block stores its successor. */
  function Word(mem: seq<byte>, a: nat): nat {
    if a + 8 <= |mem| then Le32(mem, a) + U32 * Le32(mem, a + 4) else 0
  }

  function ToWord(v: nat): (s: seq<byte>)
    ensures |s| == 8
  {
    ToLe32(v % U32) + ToLe32(v / U32 % U32)
  }

  function SetWord(mem: seq<byte>, a: nat, v: nat): (r: seq<byte>)
    ensures |r| == |mem|
  {
    if a + 8 <= |mem| then Splice(mem, a, ToWord(v)) else mem
  }

  /** `write_bytes(start, 0, size)`. */
  function ZeroFill(mem: seq<byte>, start: nat, size: nat): (r: seq<byte>)
    ensures |r| == |mem|
  {
    if start + size <= |mem| then Splice(mem, start, Zeros(size)) else mem
  }

  lemma SetThenGet(mem: seq<byte>, a: nat, v: nat)
    requires a + 8 <= |mem| && v < WORD
    ensures Word(SetWord(mem, a, v), a) == v
  {
    var r := SetWord(mem, a, v);
    var lo, hi := ToLe32(v % U32), ToLe32(v / U32 % U32);
    forall k | 0 <= k < 4 ensures r[a + k] == lo[k] && r[a + 4 + k] == hi[k] {
      assert r[a + k] == ToWord(v)[k] && r[a + 4 + k] == ToWord(v)[4 + k];
    }
    assert Le32(r, a) == Le32(lo, 0) && Le32(r, a + 4) == Le32(hi, 0);
    Halves(v);
  }

  lemma Halves(v: nat)
    requires v < WORD
    ensures v % U32 + U32 * (v / U32 % U32) == v
  {
  }

  /** A word depends on its own eight bytes only. */
  lemma WordFrame(mem: seq<byte>, mem': seq<byte>, a: nat)
    requires |mem'| == |mem| && forall k :: a <= k < a + 8 && k < |mem| ==> mem'[k] == mem[k]
    ensures Word(mem', a) == Word(mem, a)
  {
  }

  // ---------- state and operations ----------

  datatype Layout = Layout(size: nat, align: nat)

  ghost predicate AlignBits(k: nat, a: nat) { k < WORD_BITS && Pow2(k) == a }

  /** What the type of a layout guarantees: the alignment is a power of two. */
  ghost predicate ValidLayout(l: Layout) {
    l.size < WORD && exists k: nat :: AlignBits(k, l.align)
  }

  /** Head and next pointers are addresses; 0 stands for none. */
  datatype State = State(heapStart: nat, heapEnd: nat, bump: nat, heads: seq<nat>, initialized: bool, mem: seq<byte>)

  type SlabState = s: State | |s.heads| == CLASSES
    witness State(0, 0, 0, [0, 0, 0, 0, 0, 0, 0, 0, 0, 0], false, [])

  /** `new`, over a memory whose contents are arbitrary. */
  function New(mem: seq<byte>): SlabState {
    State(0, 0, 0, [0, 0, 0, 0, 0, 0, 0, 0, 0, 0], false, mem)
  }

  function Init(s: SlabState, heapStart: nat, heapSize: nat): SlabState {
    s.(heapStart := heapStart, heapEnd := heapStart + heapSize, bump := heapStart, initialized := true)
  }

  function Max(a: nat, b: nat): nat { if a < b then b else a }

  /** The scan of `class_index_for` from class `i` on; `CLASSES` stands for no class. */
  function ClassFrom(need: nat, i: nat): (r: nat)
    requires i <= CLASSES
    ensures i <= r <= CLASSES
    ensures r < CLASSES ==> need <= SIZE_CLASSES[r]
    ensures forall j :: i <= j < r ==> SIZE_CLASSES[j] < need
    decreases CLASSES - i
  {
    if i == CLASSES then CLASSES else if need <= SIZE_CLASSES[i] then i else ClassFrom(need, i + 1)
  }

  function ClassOf(l: Layout): (r: nat)
    ensures r <= CLASSES
  {
    ClassFrom(Max(l.size, l.align), 0)
  }

  /** `alloc_from_bump`: the new state and the block, 0 for none. */
  function AllocFromBump(s: SlabState, l: Layout): (r: (SlabState, nat))
    requires 1 <= l.align <= WORD
    ensures |r.0.mem| == |s.mem|
  {
    var start := AlignUp(s.bump, l.align);
    var end := start + l.size;
    if end >= WORD || end > s.heapEnd then (s, 0)
    else (s.(bump := end, mem := ZeroFill(s.mem, start, l.size)), start)
  }

  /** Pushing a block on a free list. */
  function Push(s: SlabState, idx: nat, b: nat): (r: SlabState)
    requires idx < CLASSES
    ensures |r.mem| == |s.mem|
  {
    s.(mem := SetWord(s.mem, b, s.heads[idx]), heads := s.heads[idx := b])
  }

  /** The carving loop of `refill_cache` from `off` on. */
  function Carve(s: SlabState, idx: nat, blockSize: nat, off: nat, chunkEnd: nat): SlabState
    requires idx < CLASSES && blockSize > 0
    decreases chunkEnd - off
  {
    if off + blockSize <= chunkEnd then Carve(Push(s, idx, off), idx, blockSize, off + blockSize, chunkEnd) else s
  }

  const CHUNK_LAYOUT: Layout := Layout(CHUNK_SIZE, CHUNK_SIZE)

  /** `refill_cache`. */
  function Refill(s: SlabState, idx: nat): (SlabState, bool)
    requires idx < CLASSES
  {
    var (s1, chunk) := AllocFromBump(s, CHUNK_LAYOUT);
    if chunk == 0 then (s1, false) else (Carve(s1, idx, SIZE_CLASSES[idx], chunk, chunk + CHUNK_SIZE), true)
  }

  /** Popping the head of a free list; 0 when it is empty. */
  function Pop(s: SlabState, idx: nat): (SlabState, nat)
    requires idx < CLASSES
  {
    var head := s.heads[idx];
    if head == 0 then (s, 0) else (s.(heads := s.heads[idx := Word(s.mem, head)]), head)
  }

  function AllocSmall(s: SlabState, idx: nat): (SlabState, nat)
    requires idx < CLASSES
  {
    if s.heads[idx] == 0 then
      var (s1, ok) := Refill(s, idx);
      if ok then Pop(s1, idx) else (s1, 0)
    else Pop(s, idx)
  }

  /** `alloc`. */
  function Alloc(s: SlabState, l: Layout): (SlabState, nat)
    requires 1 <= l.align <= WORD
  {
    if !s.initialized then (s, 0)
    else if ClassOf(l) < CLASSES then AllocSmall(s, ClassOf(l))
    else AllocFromBump(s, l)
  }

  /** `dealloc`. */
  function Dealloc(s: SlabState, ptr: nat, l: Layout): (r: SlabState)
    ensures |r.mem| == |s.mem|
  {
    if ptr == 0 || !s.initialized then s
    else if ClassOf(l) < CLASSES then Push(s, ClassOf(l), ptr)
    else s
  }

  // ---------- the allocator as the code has it ----------

  class SlabAllocator {
    var heapStart: nat
    var heapEnd: nat
    var bump: nat
    const caches: array<nat>
    var initialized: bool
    const mem: array<byte>

    ghost predicate Valid()
      reads this
    {
      caches.Length == CLASSES && caches as object != mem
    }

    ghost function Now(): SlabState
      reads this, caches, mem
      requires Valid()
    {
      State(heapStart, heapEnd, bump, caches[..], initialized, mem[..])
    }

    /** `new`. */
    constructor (mem: array<byte>)
      ensures Valid() && fresh(this) && fresh(caches) && this.mem == mem
      ensures Now() == New(old(mem[..]))
    {
      this.mem := mem;
      caches := new nat[CLASSES](_ => 0);
      heapStart, heapEnd, bump, initialized := 0, 0, 0, false;
      new;
      assert caches[..] == [0, 0, 0, 0, 0, 0, 0, 0, 0, 0];
    }

    method InitHeap(start: nat, size: nat)
      requires Valid()
      modifies this
      ensures Valid() && Now() == Init(old(Now()), start, size)
    {
      heapStart := start;
      heapEnd := start + size;
      bump := start;
      initialized := true;
    }

    static method ClassIndexFor(l: Layout) returns (idx: nat)
      ensures idx == ClassOf(l)
    {
      var need := Max(l.size, l.align);
      for i := 0 to CLASSES
        invariant ClassFrom(need, 0) == ClassFrom(need, i)
      {
        if need <= SIZE_CLASSES[i] {
          return i;
        }
      }
      return CLASSES;
    }

    /** Writing a word into memory, where the address is inside it. */
    method StoreWord(a: nat, v: nat)
      modifies mem
      ensures mem[..] == SetWord(old(mem[..]), a, v)
    {
      if a + 8 <= mem.Length {
        CopyInto(mem, a, ToWord(v));
      }
    }

    method BumpAlloc(l: Layout) returns (p: nat)
      requires Valid() && 1 <= l.align <= WORD
      modifies this, mem
      ensures Valid() && (Now(), p) == AllocFromBump(old(Now()), l)
    {
      var start := AlignUp(bump, l.align);
      var end := start + l.size;
      if end >= WORD {
        return 0;
      }
      if end > heapEnd {
        return 0;
      }
      bump := end;
      if start + l.size <= mem.Length {
        CopyInto(mem, start, Zeros(l.size));
      }
      p := start;
    }

    /** The two stores that put a block at the head of its list. */
    method PushBlock(idx: nat, b: nat)
      requires Valid() && idx < CLASSES
      modifies caches, mem
      ensures Valid() && Now() == Push(old(Now()), idx, b)
    {
      StoreWord(b, caches[idx]);
      caches[idx] := b;
    }

    method RefillCache(idx: nat) returns (ok: bool)
      requires Valid() && idx < CLASSES
      modifies this, caches, mem
      ensures Valid() && (Now(), ok) == Refill(old(Now()), idx)
    {
      var blockSize := SIZE_CLASSES[idx];
      var chunk := BumpAlloc(CHUNK_LAYOUT);
      if chunk == 0 {
        return false;
      }
      var off := chunk;
      var chunkEnd := chunk + CHUNK_SIZE;
      ghost var carved := Carve(Now(), idx, blockSize, chunk, chunkEnd);
      while off + blockSize <= chunkEnd
        invariant Valid() && carved == Carve(Now(), idx, blockSize, off, chunkEnd)
      {
        PushBlock(idx, off);
        off := off + blockSize;
      }
      return true;
    }

    method AllocBlock(l: Layout) returns (p: nat)
      requires Valid() && 1 <= l.align <= WORD
      modifies this, caches, mem
      ensures Valid() && (Now(), p) == Alloc(old(Now()), l)
    {
      if !initialized {
        return 0;
      }
      var idx := ClassIndexFor(l);
      if idx < CLASSES {
        if caches[idx] == 0 {
          var ok := RefillCache(idx);
          if !ok {
            return 0;
          }
        }
        var head := caches[idx];
        if head == 0 {
          return 0;
        }
        caches[idx] := Word(mem[..], head);
        p := head;
      } else {
        p := BumpAlloc(l);
      }
    }

    method DeallocBlock(ptr: nat, l: Layout)
      requires Valid()
      modifies this, caches, mem
      ensures Valid() && Now() == Dealloc(old(Now()), ptr, l)
    {
      if ptr == 0 || !initialized {
        return;
      }
      var idx := ClassIndexFor(l);
      if idx < CLASSES {
        PushBlock(idx, ptr);
      }
    }
  }
}

/** Bit formulas on 64-bit words: rounding up to an alignment, and the power-of-two test. */
module Bits {

  function Pow2(k: nat): (p: nat)
    ensures p >= 1
  {
    if k == 0 then 1 else 2 * Pow2(k - 1)
  }

  const WORD_BITS: nat := 64
  const WORD: nat := 0x1_0000_0000_0000_0000

  /** Bitwise and. */
  function And(x: nat, y: nat): nat
    decreases x
  {
    if x == 0 || y == 0 then 0
    else 2 * And(x / 2, y / 2) + (if x % 2 == 1 && y % 2 == 1 then 1 else 0)
  }

  /** Bitwise complement of a 64-bit word. */
  function Not(x: nat): nat
    requires x < WORD
  {
    WORD - 1 - x
  }

  /** `align_up`: `(x + align - 1) & !(align - 1)`, with the addition wrapping at 64 bits. */
  function AlignUp(x: nat, align: nat): nat
    requires 1 <= align <= WORD
  {
    And((x + align - 1) % WORD, Not(align - 1))
  }

  /** `is_power_of_two`. */
  predicate IsPowerOfTwo(x: nat) {
    x != 0 && And(x, x - 1) == 0
  }

  // ---------- multiples ----------

  function Times(q: nat, a: nat): nat { q * a }

  ghost predicate IsMultiple(x: nat, a: nat) {
    exists q: nat :: Times(q, a) == x
  }

  lemma TimesAssoc(q: nat, p: nat, b: nat)
    ensures Times(q, Times(p, b)) == Times(q * p, b)
  {
    assert q * (p * b) == (q * p) * b;
  }

  lemma TimesAdd(q: nat, p: nat, a: nat)
    ensures Times(q + p, a) == Times(q, a) + Times(p, a)
  {
  }

  lemma TimesMono(q: nat, p: nat, a: nat)
    requires q <= p
    ensures Times(q, a) <= Times(p, a)
  {
  }

  lemma TimesDouble(q: nat, a: nat)
    ensures Times(q, 2 * a) == 2 * Times(q, a)
  {
  }

  lemma MultipleTrans(x: nat, a: nat, b: nat)
    requires IsMultiple(x, a) && IsMultiple(a, b)
    ensures IsMultiple(x, b)
  {
    var q: nat :| Times(q, a) == x;
    var p: nat :| Times(p, b) == a;
    TimesAssoc(q, p, b);
  }

  lemma MultipleAdd(x: nat, y: nat, a: nat)
    requires IsMultiple(x, a) && IsMultiple(y, a)
    ensures IsMultiple(x + y, a)
  {
    var q: nat :| Times(q, a) == x;
    var p: nat :| Times(p, a) == y;
    TimesAdd(q, p, a);
  }

  /** A smaller power of two divides a larger one. */
  lemma {:induction false} PowDivides(j: nat, k: nat)
    requires j <= k
    ensures IsMultiple(Pow2(k), Pow2(j))
    decreases k - j
  {
    if j == k {
      assert Times(1, Pow2(j)) == Pow2(k);
    } else {
      PowDivides(j, k - 1);
      assert Times(2, Pow2(k - 1)) == Pow2(k);
      assert IsMultiple(Pow2(k), Pow2(k - 1));
      MultipleTrans(Pow2(k), Pow2(k - 1), Pow2(j));
    }
  }

  lemma {:induction false} PowMono(j: nat, k: nat)
    requires j < k
    ensures Pow2(j) < Pow2(k)
    decreases k - j
  {
    if j + 1 < k { PowMono(j, k - 1); }
  }

  lemma WordIsPow()
    ensures Pow2(64) == WORD
  {
    assert Pow2(4) == 16;
    PowSplit(4, 4);
    PowSplit(8, 8);
    PowSplit(16, 16);
    PowSplit(32, 32);
  }

  lemma DoubleRight(a: nat, b: nat)
    ensures a * (2 * b) == 2 * (a * b)
  {
  }

  lemma {:induction false} PowSplit(j: nat, k: nat)
    ensures Pow2(j + k) == Pow2(j) * Pow2(k)
    decreases k
  {
    if k > 0 {
      PowSplit(j, k - 1);
      DoubleRight(Pow2(j), Pow2(k - 1));
    }
  }

  // ---------- clearing low bits ----------

  /** `y` with its low `k` bits cleared. */
  function Down(y: nat, k: nat): nat
    decreases k
  {
    if k == 0 then y else 2 * Down(y / 2, k - 1)
  }

  lemma {:induction false} DownSpec(y: nat, k: nat)
    ensures IsMultiple(Down(y, k), Pow2(k))
    ensures Down(y, k) <= y < Down(y, k) + Pow2(k)
    decreases k
  {
    if k == 0 {
      assert Times(y, 1) == y;
    } else {
      DownSpec(y / 2, k - 1);
      var q: nat :| Times(q, Pow2(k - 1)) == Down(y / 2, k - 1);
      TimesDouble(q, Pow2(k - 1));
    }
  }

  lemma {:induction false} AndFull(y: nat, w: nat)
    requires y < Pow2(w)
    ensures And(y, Pow2(w) - 1) == y
    decreases w
  {
    if w > 0 && y > 0 {
      assert (Pow2(w) - 1) / 2 == Pow2(w - 1) - 1;
      AndFull(y / 2, w - 1);
    }
  }

  /** Masking with all but the low `k` of `w` bits clears those bits. */
  lemma {:induction false} AndMask(y: nat, w: nat, k: nat)
    requires y < Pow2(w) && k <= w
    ensures Pow2(k) <= Pow2(w) && And(y, Pow2(w) - Pow2(k)) == Down(y, k)
    decreases k
  {
    if k < w { PowMono(k, w); }
    if k == 0 {
      AndFull(y, w);
    } else {
      AndMask(y / 2, w - 1, k - 1);
      var m := Pow2(w - 1) - Pow2(k - 1);
      assert Pow2(w) - Pow2(k) == 2 * m;
      AndEven(y, m);
    }
  }

  lemma AndEven(y: nat, m: nat)
    ensures And(y, 2 * m) == 2 * And(y / 2, m)
  {
    assert And(0, m) == 0;
    if y > 0 && m > 0 { assert 2 * m / 2 == m; }
  }

  /** `align_up` yields the least multiple of a power of two that is not below `x`, as long as the addition does not
      overflow. */
  lemma AlignUpSpec(x: nat, k: nat)
    requires k < WORD_BITS && x + Pow2(k) - 1 < WORD
    ensures Pow2(k) < WORD
    ensures var r := AlignUp(x, Pow2(k));
            && x <= r < x + Pow2(k) && IsMultiple(r, Pow2(k))
            && forall m :: x <= m && IsMultiple(m, Pow2(k)) ==> r <= m
  {
    var r := AlignUp(x, Pow2(k));
    AlignUpIsDown(x, k);
    DownSpec(x + Pow2(k) - 1, k);
    forall m | x <= m && IsMultiple(m, Pow2(k)) ensures r <= m {
      MultiplesApart(m, r, Pow2(k));
    }
  }

  lemma AlignUpIsDown(x: nat, k: nat)
    requires k < WORD_BITS && x + Pow2(k) - 1 < WORD
    ensures Pow2(k) < WORD && AlignUp(x, Pow2(k)) == Down(x + Pow2(k) - 1, k)
  {
    var y := x + Pow2(k) - 1;
    WordIsPow();
    PowMono(k, 64);
    AndMask(y, 64, k);
    NoWrap(y);
    assert Not(Pow2(k) - 1) == Pow2(64) - Pow2(k);
  }

  lemma NoWrap(y: nat)
    requires y < WORD
    ensures y % WORD == y
  {
  }

  /** Two multiples less than one step apart in the wrong order are equal. */
  lemma MultiplesApart(m: nat, r: nat, a: nat)
    requires IsMultiple(m, a) && IsMultiple(r, a) && r < m + a
    ensures r <= m
  {
    var q: nat :| Times(q, a) == m;
    var p: nat :| Times(p, a) == r;
    TimesAdd(q, 1, a);
    if p > q { TimesMono(q + 1, p, a); } else { TimesMono(p, q, a); }
  }

  // ---------- the power-of-two test ----------

  lemma {:induction false} AndSelf(h: nat)
    ensures And(h, h) == h
  {
    if h > 0 { AndSelf(h / 2); }
  }

  ghost predicate IsPow(x: nat) {
    exists k: nat :: Pow2(k) == x
  }

  lemma PowHalf(x: nat)
    requires x > 0 && x % 2 == 0
    ensures IsPow(x) <==> IsPow(x / 2)
  {
    if IsPow(x) {
      var k: nat :| Pow2(k) == x;
      assert k > 0 && Pow2(k - 1) == x / 2;
    }
    if IsPow(x / 2) {
      var k: nat :| Pow2(k) == x / 2;
      assert Pow2(k + 1) == x;
    }
  }

  lemma AndBelow(x: nat)
    requires x > 1
    ensures And(x, x - 1) == if x % 2 == 0 then 2 * And(x / 2, x / 2 - 1) else 2 * And(x / 2, x / 2)
  {
    assert (x - 1) / 2 == if x % 2 == 0 then x / 2 - 1 else x / 2;
  }

  lemma OddIsNotPow(x: nat)
    requires x > 1 && x % 2 == 1
    ensures !IsPow(x)
  {
    forall k: nat ensures Pow2(k) != x {
      if k > 0 { assert Pow2(k) == 2 * Pow2(k - 1); }
    }
  }

  /** The bit test holds exactly of the powers of two. */
  lemma {:induction false} PowerTest(x: nat)
    ensures IsPowerOfTwo(x) <==> IsPow(x)
  {
    if x == 0 {
      assert forall k: nat :: Pow2(k) != 0;
    } else if x == 1 {
      assert Pow2(0) == 1;
    } else {
      AndBelow(x);
      if x % 2 == 0 {
        PowHalf(x);
        PowerTest(x / 2);
      } else {
        OddIsNotPow(x);
        AndSelf(x / 2);
      }
    }
  }
}

/** Cluster chains as linked lists inside the file allocation table, seen as a sequence of 28-bit values. */
module Chains {
  import opened Wrappers

  const EOC: nat := 0x0FFF_FFFF
  const EOC_MIN: nat := 0x0FFF_FFF8
  const FIRST_CLUSTER: nat := 2
  /** The longest walk any reader makes. */
  const MAX_CHAIN: nat := 4096

  /** `fat[c]` is the masked entry of cluster `c`; no index can be mistaken for an end mark. */
  type Fat = fat: seq<nat> | |fat| <= EOC_MIN witness []

  predicate InRange(fat: Fat, c: nat) {
    FIRST_CLUSTER <= c < |fat|
  }

  predicate AllInRange(fat: Fat, ch: seq<nat>) {
    forall i :: 0 <= i < |ch| ==> InRange(fat, ch[i])
  }

  predicate AllFree(fat: Fat, ch: seq<nat>) {
    forall i :: 0 <= i < |ch| ==> InRange(fat, ch[i]) && fat[ch[i]] == 0
  }

  ghost predicate Disjoint(a: seq<nat>, b: seq<nat>) {
    forall c :: c in a ==> c !in b
  }

  /** `ch` is a complete chain: consecutive clusters are linked and the last one is marked as the end. */
  ghost predicate IsChain(fat: Fat, ch: seq<nat>) {
    && ch != []
    && AllInRange(fat, ch)
    && (forall i :: 0 <= i < |ch| - 1 ==> fat[ch[i]] == ch[i + 1])
    && fat[ch[|ch| - 1]] >= EOC_MIN
  }

  /** The chain that starts at `c`, if a walk of at most `fuel` in-range clusters reaches an end mark. */
  function Follow(fat: Fat, c: nat, fuel: nat): Option<seq<nat>>
    decreases fuel
  {
    if fuel == 0 || !InRange(fat, c) then None
    else if fat[c] >= EOC_MIN then Some([c])
    else match Follow(fat, fat[c], fuel - 1)
         case None => None
         case Some(rest) => Some([c] + rest)
  }

  function ChainAt(fat: Fat, c: nat): Option<seq<nat>> {
    Follow(fat, c, MAX_CHAIN)
  }

  // ---------- theory of complete chains ----------

  lemma {:induction false} FollowIsChain(fat: Fat, c: nat, fuel: nat)
    requires Follow(fat, c, fuel).Some?
    ensures var ch := Follow(fat, c, fuel).value;
            IsChain(fat, ch) && ch[0] == c && |ch| <= fuel
    decreases fuel
  {
    if fat[c] < EOC_MIN {
      FollowIsChain(fat, fat[c], fuel - 1);
    }
  }

  lemma {:induction false} ChainIsFollowed(fat: Fat, ch: seq<nat>, fuel: nat)
    requires IsChain(fat, ch) && |ch| <= fuel
    ensures Follow(fat, ch[0], fuel) == Some(ch)
  {
    ChainStep(fat, ch, 0);
    if |ch| == 1 {
      assert ch == [ch[0]];
    } else {
      var rest := ch[1..];
      assert IsChain(fat, rest) by {
        forall i | 0 <= i < |rest| - 1 ensures fat[rest[i]] == rest[i + 1] {
          assert fat[ch[i + 1]] == ch[i + 2];
        }
      }
      ChainIsFollowed(fat, rest, fuel - 1);
      assert ch == [ch[0]] + rest;
    }
  }

  /** Reading the entry of the `i`-th cluster tells whether the chain goes on, and where. */
  lemma ChainStep(fat: Fat, ch: seq<nat>, i: nat)
    requires IsChain(fat, ch) && i < |ch|
    ensures InRange(fat, ch[i])
    ensures i + 1 < |ch| ==> fat[ch[i]] == ch[i + 1] && FIRST_CLUSTER <= ch[i + 1] < EOC_MIN
    ensures i + 1 == |ch| ==> fat[ch[i]] >= EOC_MIN
  {
    if i + 1 < |ch| { assert InRange(fat, ch[i + 1]); }
  }

  /** Two complete chains that share a cluster share everything after it. */
  lemma {:induction false} ShareTail(fat: Fat, a: seq<nat>, i: nat, b: seq<nat>, j: nat)
    requires IsChain(fat, a) && IsChain(fat, b)
    requires i < |a| && j < |b| && a[i] == b[j]
    ensures a[i..] == b[j..]
    decreases |a| - i
  {
    ChainStep(fat, a, i);
    ChainStep(fat, b, j);
    if i + 1 < |a| {
      ShareTail(fat, a, i + 1, b, j + 1);
      assert a[i..] == [a[i]] + a[i + 1..] && b[j..] == [b[j]] + b[j + 1..];
    } else {
      assert a[i..] == [a[i]] && b[j..] == [b[j]];
    }
  }

  /** A complete chain never repeats a cluster. */
  lemma ChainDistinct(fat: Fat, ch: seq<nat>)
    requires IsChain(fat, ch)
    ensures Distinct(ch)
  {
    forall i, j | 0 <= i < j < |ch| ensures ch[i] != ch[j] {
      if ch[i] == ch[j] {
        ShareTail(fat, ch, i, ch, j);
        assert false;
      }
    }
  }

  /** A complete chain contains no free cluster, so it meets no set of free clusters. */
  lemma ChainNotFree(fat: Fat, ch: seq<nat>, free: seq<nat>)
    requires IsChain(fat, ch)
    requires AllFree(fat, free)
    ensures forall c :: c in ch ==> InRange(fat, c) && fat[c] != 0
    ensures Disjoint(ch, free) && Disjoint(free, ch)
  {
    forall c | c in ch ensures InRange(fat, c) && fat[c] != 0 {
      var i :| 0 <= i < |ch| && ch[i] == c;
      ChainStep(fat, ch, i);
    }
  }

  /** A chain survives every change of the table made outside it. */
  lemma ChainFrame(fat: Fat, fat': Fat, ch: seq<nat>)
    requires IsChain(fat, ch) && |fat'| == |fat|
    requires forall c :: c in ch && InRange(fat, c) ==> fat'[c] == fat[c]
    ensures IsChain(fat', ch)
  {
    forall i | 0 <= i < |ch| ensures InRange(fat, ch[i]) && fat'[ch[i]] == fat[ch[i]] {
      assert ch[i] in ch;
    }
  }

  // ---------- freeing and linking ----------

  function Zero(fat: Fat, ch: seq<nat>): (r: Fat)
    requires AllInRange(fat, ch)
    ensures |r| == |fat|
    ensures forall c :: 0 <= c < |fat| ==> r[c] == if c in ch then 0 else fat[c]
    decreases |ch|
  {
    if ch == [] then fat else Zero(fat[ch[0] := 0], ch[1..])
  }

  /** Each cluster of `ch` points to the next one, the last one to the end mark. */
  function Link(fat: Fat, ch: seq<nat>): (r: Fat)
    requires AllInRange(fat, ch)
    ensures |r| == |fat|
    ensures forall c :: 0 <= c < |fat| && c !in ch ==> r[c] == fat[c]
    decreases |ch|
  {
    if ch == [] then fat
    else Link(fat[ch[0] := if |ch| > 1 then ch[1] else EOC], ch[1..])
  }

  lemma {:induction false} LinkMakesChain(fat: Fat, ch: seq<nat>)
    requires ch != [] && Distinct(ch) && AllInRange(fat, ch)
    ensures IsChain(Link(fat, ch), ch)
    decreases |ch|
  {
    var r := Link(fat, ch);
    var next := fat[ch[0] := if |ch| > 1 then ch[1] else EOC];
    var rest := ch[1..];
    assert ch[0] !in rest;
    assert r[ch[0]] == next[ch[0]];
    if |ch| > 1 {
      LinkMakesChain(next, rest);
      forall i | 0 <= i < |ch| - 1 ensures r[ch[i]] == ch[i + 1] {
        if i > 0 { assert r[rest[i - 1]] == rest[i]; }
      }
      assert ch[|ch| - 1] == rest[|rest| - 1];
    }
  }

  // ---------- free clusters, in increasing order ----------

  function FreeFrom(fat: Fat, c: nat): (s: seq<nat>)
    decreases |fat| - c
  {
    if c >= |fat| then []
    else if fat[c] == 0 then [c] + FreeFrom(fat, c + 1)
    else FreeFrom(fat, c + 1)
  }

  function FreeClusters(fat: Fat): seq<nat> {
    FreeFrom(fat, FIRST_CLUSTER)
  }

  function FreeCount(fat: Fat): nat {
    |FreeClusters(fat)|
  }

  ghost predicate Increasing(s: seq<nat>) {
    forall i, j :: 0 <= i < j < |s| ==> s[i] < s[j]
  }

  lemma {:induction false} FreeFromMembers(fat: Fat, c: nat)
    ensures forall k :: k in FreeFrom(fat, c) <==> c <= k < |fat| && fat[k] == 0
    decreases |fat| - c
  {
    if c < |fat| {
      var rest := FreeFrom(fat, c + 1);
      FreeFromMembers(fat, c + 1);
      assert fat[c] == 0 ==> forall k :: k in [c] + rest <==> k == c || k in rest;
    }
  }

  lemma {:induction false} FreeFromIncreasing(fat: Fat, c: nat)
    ensures Increasing(FreeFrom(fat, c))
    decreases |fat| - c
  {
    if c < |fat| {
      var rest := FreeFrom(fat, c + 1);
      FreeFromIncreasing(fat, c + 1);
      FreeFromMembers(fat, c + 1);
      if fat[c] == 0 { ConsIncreasing(c, rest); }
    }
  }

  lemma ConsIncreasing(c: nat, rest: seq<nat>)
    requires Increasing(rest) && forall k :: k in rest ==> c < k
    ensures Increasing([c] + rest)
  {
    var all := [c] + rest;
    forall i, j | 0 <= i < j < |all| ensures all[i] < all[j] {
      assert all[j] == rest[j - 1] && rest[j - 1] in rest;
    }
  }

  /** The free clusters from `c` on, all of them and in increasing order. */
  lemma FreeFromSpec(fat: Fat, c: nat)
    ensures Increasing(FreeFrom(fat, c))
    ensures forall k :: k in FreeFrom(fat, c) <==> c <= k < |fat| && fat[k] == 0
  {
    FreeFromIncreasing(fat, c);
    FreeFromMembers(fat, c);
  }

  /** The first `n` free clusters are exactly the `n` lowest ones. */
  lemma FirstFitIsLowest(fat: Fat, n: nat)
    requires n <= FreeCount(fat)
    ensures var found := FreeClusters(fat)[..n];
            && Increasing(found) && Distinct(found)
            && AllFree(fat, found)
            && (forall c: nat, f: nat :: InRange(fat, c) && fat[c] == 0 && c !in found && f in found ==> f < c)
  {
    FreeFromSpec(fat, FIRST_CLUSTER);
    hide FreeFrom;
    var all := FreeClusters(fat);
    var found := all[..n];
    assert forall i :: 0 <= i < n ==> found[i] == all[i] && all[i] in all && all[i] in found;
    forall c: nat, f: nat | InRange(fat, c) && fat[c] == 0 && c !in found && f in found ensures f < c {
      var i :| 0 <= i < |all| && all[i] == c;
      var j :| 0 <= j < n && found[j] == f;
      assert all[j] < all[i];
    }
  }

  // ---------- counting ----------

  lemma {:induction false} FreeFromUpdate(fat: Fat, fat': Fat, c: nat, k: nat)
    requires InRange(fat, c) && |fat'| == |fat|
    requires forall i :: 0 <= i < |fat| && i != c ==> fat'[i] == fat[i]
    ensures |FreeFrom(fat', k)| + (if k <= c && fat[c] == 0 then 1 else 0)
            == |FreeFrom(fat, k)| + (if k <= c && fat'[c] == 0 then 1 else 0)
    decreases |fat| - k
  {
    if k < |fat| {
      FreeFromUpdate(fat, fat', c, k + 1);
    }
  }

  lemma {:induction false} FreeCountZero(fat: Fat, ch: seq<nat>)
    requires Distinct(ch) && AllInRange(fat, ch)
    requires forall i :: 0 <= i < |ch| ==> fat[ch[i]] != 0
    ensures FreeCount(Zero(fat, ch)) == FreeCount(fat) + |ch|
    decreases |ch|
  {
    if ch != [] {
      var next := fat[ch[0] := 0];
      FreeFromUpdate(fat, next, ch[0], FIRST_CLUSTER);
      FreeCountZero(next, ch[1..]);
    }
  }

  lemma {:induction false} FreeCountLink(fat: Fat, ch: seq<nat>)
    requires Distinct(ch) && AllFree(fat, ch)
    ensures FreeCount(Link(fat, ch)) + |ch| == FreeCount(fat)
    decreases |ch|
  {
    if ch != [] {
      var next := fat[ch[0] := if |ch| > 1 then ch[1] else EOC];
      FreeFromUpdate(fat, next, ch[0], FIRST_CLUSTER);
      FreeCountLink(next, ch[1..]);
    }
  }
}

/** Writing and reading the data clusters of a chain. */
module Clusters {
  import opened Wrappers
  import opened Bytes
  import opened Chains
  import opened Geometry
  import opened Tables

  function Min(a: nat, b: nat): nat { if a < b then a else b }

  // ---------- one write inside one cluster ----------

  /** No byte before the data area differs. */
  ghost predicate DataOnly(g: Geo, d: seq<byte>, d': seq<byte>) {
    && |d'| == |d|
    && forall k :: 0 <= k < |d| && k < g.dataStart ==> d'[k] == d[k]
  }

  /** The clusters become `data`; header and tables do not change. */
  ghost predicate DataEffect(g: Geo, d: seq<byte>, d': seq<byte>, data: seq<seq<byte>>)
    requires Layout(g, |d|)
  {
    && DataOnly(g, d, d')
    && View(g, d') == Vol(View(g, d).fat, data)
    && (Mirrored(g, d) ==> Mirrored(g, d'))
  }

  lemma DataOnlyKeepsTables(g: Geo, d: seq<byte>, d': seq<byte>)
    requires Layout(g, |d|) && DataOnly(g, d, d')
    ensures View(g, d').fat == View(g, d).fat
    ensures Mirrored(g, d) ==> Mirrored(g, d')
  {
    forall c | 0 <= c <= Top(g, |d|) ensures FatValue(g, d', c) == FatValue(g, d, c) {
      EntryBounds(g, |d|, 0, c);
    }
    forall j, k | 0 <= j < g.numFats && 0 <= k < g.fatLen ensures FatByte(g, d', j, k) == FatByte(g, d, j, k) {
      CopyBounds(g, |d|, j, g.numFats);
    }
  }

  /** Bytes laid inside cluster `c` change that cluster and nothing else. */
  lemma SpliceClusterEffect(g: Geo, d: seq<byte>, c: nat, o: nat, bytes: seq<byte>)
    requires Layout(g, |d|) && FIRST_CLUSTER <= c <= Top(g, |d|)
    requires o + |bytes| <= g.clusterSize
    ensures ClusterOff(g, c) + o + |bytes| <= |d|
    ensures DataEffect(g, d, Splice(d, ClusterOff(g, c) + o, bytes),
                       View(g, d).data[c := Splice(View(g, d).data[c], o, bytes)])
  {
    ClusterBounds(g, |d|, c);
    var d' := Splice(d, ClusterOff(g, c) + o, bytes);
    DataOnlyKeepsTables(g, d, d');
    forall b | 0 <= b <= Top(g, |d|)
      ensures ClusterBytes(g, d', b) == if b == c then Splice(ClusterBytes(g, d, c), o, bytes)
              else ClusterBytes(g, d, b)
    {
      SpliceClusterBytes(g, d, c, o, bytes, b);
    }
    assert View(g, d').data == View(g, d).data[c := Splice(View(g, d).data[c], o, bytes)];
  }

  lemma SpliceClusterBytes(g: Geo, d: seq<byte>, c: nat, o: nat, bytes: seq<byte>, b: nat)
    requires Layout(g, |d|) && FIRST_CLUSTER <= c <= Top(g, |d|) && b <= Top(g, |d|)
    requires o + |bytes| <= g.clusterSize && ClusterOff(g, c) + o + |bytes| <= |d|
    ensures ClusterBytes(g, Splice(d, ClusterOff(g, c) + o, bytes), b)
            == if b == c then Splice(ClusterBytes(g, d, c), o, bytes) else ClusterBytes(g, d, b)
  {
    if b >= FIRST_CLUSTER {
      ClusterBounds(g, |d|, b);
      if b < c { ClustersApart(g, b, c); }
      if c < b { ClustersApart(g, c, b); }
    }
  }

  // ---------- filling a chain ----------

  /** A cluster's worth of content, padded with zeros. */
  function Padded(content: seq<byte>, size: nat): (s: seq<byte>)
    ensures |s| == size
  {
    var n := Min(|content|, size);
    content[..n] + Zeros(size - n)
  }

  /** The loop of `write_chain_data`: one whole cluster at a time until the content is used up. */
  function FillChain(g: Geo, d: seq<byte>, ch: seq<nat>, content: seq<byte>): (o: Outcome<()>)
    ensures |o.disk| == |d|
    decreases |ch|
  {
    if ch == [] then Outcome(Ok(()), d) else
      match WholeCluster(g, |d|, ch[0])
      case Err(e) => Outcome(Err(e), d)
      case Ok(off) =>
        var d1 := Splice(d, off, Padded(content, g.clusterSize));
        var rest := content[Min(|content|, g.clusterSize)..];
        if rest == [] then Outcome(Ok(()), d1) else FillChain(g, d1, ch[1..], rest)
  }

  /** The same, on clusters. */
  function Fill(data: seq<seq<byte>>, ch: seq<nat>, content: seq<byte>, size: nat): (r: seq<seq<byte>>)
    requires forall i :: 0 <= i < |ch| ==> ch[i] < |data|
    ensures |r| == |data|
    ensures forall c :: 0 <= c < |data| && c !in ch ==> r[c] == data[c]
    decreases |ch|
  {
    if ch == [] then data else
      var data1 := data[ch[0] := Padded(content, size)];
      var rest := content[Min(|content|, size)..];
      if rest == [] then data1 else Fill(data1, ch[1..], rest, size)
  }

  lemma {:induction false} FillChainEffect(g: Geo, d: seq<byte>, ch: seq<nat>, content: seq<byte>)
    requires Layout(g, |d|) && AllInRange(View(g, d).fat, ch)
    ensures FillChain(g, d, ch, content).result == Ok(())
    ensures DataEffect(g, d, FillChain(g, d, ch, content).disk, Fill(View(g, d).data, ch, content, g.clusterSize))
    decreases |ch|
  {
    if ch != [] {
      var c := ch[0];
      assert InRange(View(g, d).fat, c);
      ReadClusterView(g, d, c);
      var bytes := Padded(content, g.clusterSize);
      SpliceClusterEffect(g, d, c, 0, bytes);
      assert Splice(View(g, d).data[c], 0, bytes) == bytes;
      var d1 := Splice(d, ClusterOff(g, c), bytes);
      FillChainEffect(g, d1, ch[1..], content[Min(|content|, g.clusterSize)..]);
    }
  }

  // ---------- reading a chain ----------

  /** The first `n` bytes stored along `ch`, `size` bytes to a cluster. */
  function Gather(data: seq<seq<byte>>, ch: seq<nat>, n: nat, size: nat): seq<byte>
    requires forall i :: 0 <= i < |ch| ==> ch[i] < |data| && |data[ch[i]]| == size
    decreases |ch|
  {
    if ch == [] || n == 0 then []
    else data[ch[0]][..Min(n, size)] + Gather(data, ch[1..], n - Min(n, size), size)
  }

  /** What was filled in along a chain is what is gathered from it. */
  lemma {:induction false} FillThenGather(data: seq<seq<byte>>, ch: seq<nat>, content: seq<byte>, size: nat)
    requires forall i :: 0 <= i < |ch| ==> ch[i] < |data| && |data[ch[i]]| == size
    requires Distinct(ch) && size > 0 && |content| <= |ch| * size
    ensures var r := Fill(data, ch, content, size);
            && (forall i :: 0 <= i < |ch| ==> |r[ch[i]]| == size)
            && Gather(r, ch, |content|, size) == content
    decreases |ch|
  {
    if ch == [] {
      assert content == [];
    } else {
      var r := Fill(data, ch, content, size);
      var n := Min(|content|, size);
      var data1 := data[ch[0] := Padded(content, size)];
      var rest := content[n..];
      NextMultiple(|ch| - 1, size);
      assert ch[0] !in ch[1..];
      assert r[ch[0]] == Padded(content, size);
      if rest == [] {
        assert content[..n] == content;
      } else {
        FillThenGather(data1, ch[1..], rest, size);
        assert forall i :: 1 <= i < |ch| ==> ch[i] == ch[1..][i - 1];
        assert content == content[..n] + rest;
      }
    }
  }

  lemma GatherStep(data: seq<seq<byte>>, ch: seq<nat>, n: nat, size: nat)
    requires forall i :: 0 <= i < |ch| ==> ch[i] < |data| && |data[ch[i]]| == size
    requires ch != [] && 0 < size <= n
    ensures Gather(data, ch, n, size) == data[ch[0]] + Gather(data, ch[1..], n - size, size)
  {
    assert data[ch[0]][..size] == data[ch[0]];
  }

  lemma Joined(head: seq<byte>, rest: seq<byte>, n: nat)
    ensures head + (rest + Zeros(n)) == (head + rest) + Zeros(n)
  {
  }

  lemma FillStep(data: seq<seq<byte>>, ch: seq<nat>, content: seq<byte>, size: nat)
    requires (forall i :: 0 <= i < |ch| ==> ch[i] < |data|) && ch != [] && Distinct(ch) && |content| > size
    ensures var data1 := data[ch[0] := content[..size]];
            && Fill(data, ch, content, size) == Fill(data1, ch[1..], content[size..], size)
            && Fill(data, ch, content, size)[ch[0]] == content[..size]
  {
    assert Padded(content, size) == content[..size];
    assert ch[0] !in ch[1..];
  }

  /** What lies along a chain of just enough clusters is the content, and then zeros up to the end of the last one. */
  lemma FillThenGatherAll(data: seq<seq<byte>>, ch: seq<nat>, content: seq<byte>, size: nat)
    requires forall i :: 0 <= i < |ch| ==> ch[i] < |data| && |data[ch[i]]| == size
    requires Distinct(ch) && size > 0 && |content| <= |ch| * size < |content| + size
    ensures var r := Fill(data, ch, content, size);
            && (forall i :: 0 <= i < |ch| ==> |r[ch[i]]| == size)
            && Gather(r, ch, |ch| * size, size) == content + Zeros(|ch| * size - |content|)
  {
    FillThenGather(data, ch, content, size);
    GatherAll(data, ch, content, size, |ch| * size);
  }

  lemma {:induction false} GatherAll(data: seq<seq<byte>>, ch: seq<nat>, content: seq<byte>, size: nat, n: nat)
    requires forall i :: 0 <= i < |ch| ==> ch[i] < |data| && |data[ch[i]]| == size
    requires Distinct(ch) && size > 0 && n == |ch| * size && |content| <= n < |content| + size
    ensures forall i :: 0 <= i < |ch| ==> |Fill(data, ch, content, size)[ch[i]]| == size
    ensures Gather(Fill(data, ch, content, size), ch, n, size) == content + Zeros(n - |content|)
    decreases |ch|, 1
  {
    if ch == [] {
      assert content == [] && Zeros(0) == [];
    } else {
      hide Fill, Gather, Zeros, Distinct;
      FillThenGather(data, ch, content, size);
      NextMultiple(|ch| - 1, size);
      if |content| <= size {
        OneCluster(|ch| - 1, size);
        FillOne(data, ch, content, size);
      } else {
        GatherMany(data, ch, content, size, n);
      }
    }
  }

  lemma {:induction false} GatherMany(data: seq<seq<byte>>, ch: seq<nat>, content: seq<byte>, size: nat, n: nat)
    requires forall i :: 0 <= i < |ch| ==> ch[i] < |data| && |data[ch[i]]| == size
    requires Distinct(ch) && size > 0 && n == |ch| * size && size < |content| <= n < |content| + size && ch != []
    requires forall i :: 0 <= i < |ch| ==> |Fill(data, ch, content, size)[ch[i]]| == size
    ensures Gather(Fill(data, ch, content, size), ch, n, size) == content + Zeros(n - |content|)
    decreases |ch|, 0
  {
    var data1, rest := data[ch[0] := content[..size]], content[size..];
    FillStep(data, ch, content, size);
    GatherStep(Fill(data, ch, content, size), ch, n, size);
    NextMultiple(|ch| - 1, size);
    hide Fill, Gather, Zeros;
    GatherAll(data1, ch[1..], rest, size, n - size);
    Joined(content[..size], rest, n - |content|);
    assert content == content[..size] + rest;
  }

  lemma FillOne(data: seq<seq<byte>>, ch: seq<nat>, content: seq<byte>, size: nat)
    requires |ch| == 1 && ch[0] < |data| && |data[ch[0]]| == size && |content| <= size && size > 0
    ensures |Fill(data, ch, content, size)[ch[0]]| == size
    ensures Gather(Fill(data, ch, content, size), ch, size, size) == content + Zeros(size - |content|)
  {
    var r := Fill(data, ch, content, size);
    assert content[..|content|] == content;
    assert r[ch[0]] == Padded(content, size);
    GatherStep(r, ch, size, size);
    assert Gather(r, ch[1..], 0, size) == [];
  }

  lemma OneCluster(n: nat, size: nat)
    requires size > 0 && n * size < size
    ensures n == 0
  {
    if n > 0 { MulMono(1, n, size); }
  }

  lemma {:induction false} GatherFrame(data: seq<seq<byte>>, data': seq<seq<byte>>, ch: seq<nat>, n: nat, size: nat)
    requires forall i :: 0 <= i < |ch| ==> ch[i] < |data| && |data[ch[i]]| == size
    requires |data'| == |data| && forall i :: 0 <= i < |ch| ==> data'[ch[i]] == data[ch[i]]
    ensures Gather(data', ch, n, size) == Gather(data, ch, n, size)
    decreases |ch|
  {
    if ch != [] && n != 0 {
      GatherFrame(data, data', ch[1..], n - Min(n, size), size);
    }
  }
}

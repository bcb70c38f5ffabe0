/** What the operations answer on any image at all, usable or broken. */
module Answers {
  import opened Wrappers
  import opened Bytes
  import opened DirEntries
  import opened Geometry
  import opened Tables
  import opened Clusters
  import opened Paths
  import opened Names
  import opened NameRules
  import opened Engine
  import opened Formats

  // ---------- paths that do not start with a slash, and the root ----------

  /** A path that does not start with a slash is refused by every call that takes one, and nothing is written. */
  lemma RelativePathRefused(g: Geo, d: seq<byte>, path: string, content: seq<byte>)
    requires path == "" || path[0] as int != 47
    ensures OpenPath(g, d, path) == Err(Other) && ReadFileByPath(g, d, path) == Err(Other)
    ensures ListDirPath(g, d, path) == Err(Other)
    ensures g.clusterSize > 0 ==> WriteFile(g, d, path, content) == Outcome(Err(Other), d)
  {
    assert path != "/" by { assert '/' as int == 47; }
  }

  /** The root opens to no entry and cannot be read or written; it is listed from its cluster. */
  lemma RootAnswers(g: Geo, d: seq<byte>, content: seq<byte>)
    ensures OpenPath(g, d, "/") == Ok(None) && ReadFileByPath(g, d, "/") == Ok(None)
    ensures ListDirPath(g, d, "/") == ListDir(g, d, g.root)
    ensures g.clusterSize > 0 ==> WriteFile(g, d, "/", content) == Outcome(Err(Other), d)
  {
  }

  /** Any other path, by what it opens to: nothing is PathNotFound to those who need a directory and no content to the
      reader; a file is NotADirectory; a directory is NotAFile. */
  lemma PathAnswers(g: Geo, d: seq<byte>, path: string)
    requires path != "/"
    ensures OpenPath(g, d, path).Err? ==>
              && ListDirPath(g, d, path) == Err(OpenPath(g, d, path).error)
              && ReadFileByPath(g, d, path) == Err(OpenPath(g, d, path).error)
              && ParentCluster(g, d, path) == Err(OpenPath(g, d, path).error)
    ensures OpenPath(g, d, path) == Ok(None) ==>
              && ListDirPath(g, d, path) == Err(PathNotFound) && ReadFileByPath(g, d, path) == Ok(None)
              && ParentCluster(g, d, path) == Err(PathNotFound)
    ensures OpenPath(g, d, path).Ok? && OpenPath(g, d, path).value.Some? ==>
              var e := OpenPath(g, d, path).value.value;
              if e.attrs.directory
              then ListDirPath(g, d, path) == ListDir(g, d, e.firstCluster)
                   && ReadFileByPath(g, d, path) == Err(NotAFile) && ParentCluster(g, d, path) == Ok(e.firstCluster)
              else ListDirPath(g, d, path) == Err(NotADirectory) && ParentCluster(g, d, path) == Err(NotADirectory)
  {
  }

  /** A write whose parent cannot be opened as a directory answers as that does, and writes nothing. */
  lemma ParentAnswers(g: Geo, d: seq<byte>, path: string, content: seq<byte>)
    requires g.clusterSize > 0 && path != "" && path[0] as int == 47 && path != "/" && SplitParent(path).Ok?
    ensures var (parent, name) := SplitParent(path).value;
            && (Encode(name).Err? ==> WriteFile(g, d, path, content) == Outcome(Err(InvalidName), d))
            && (Encode(name).Ok? && ParentCluster(g, d, parent).Err? ==>
                  WriteFile(g, d, path, content) == Outcome(Err(ParentCluster(g, d, parent).error), d))
  {
    EncodeOthers(SplitParent(path).value.1);
    assert '/' as int == 47;
  }

  // ---------- chains that do not end ----------

  /** A directory whose chain is broken is answered with the walk's error by all who read it, and freeing a broken chain
      frees nothing. */
  lemma BrokenChain(g: Geo, d: seq<byte>, c: nat, raw: RawName, error: FatError)
    requires FollowChain(g, d, c) == Err(error)
    ensures ListDir(g, d, c) == Err(error) && FindEntry(g, d, c, raw) == Err(error) && FindFree(g, d, c) == Err(error)
    ensures FreeChain(g, d, c) == if c < 2 then Outcome(Ok(()), d) else Outcome(Err(error), d)
    ensures forall e: DirEntry :: e.IsFile() && e.size > 0 && e.firstCluster == c ==> ReadFile(g, d, e) == Err(error)
  {
  }

  /** What `read_file` answers before it looks at a chain. */
  lemma ReadRefuses(g: Geo, d: seq<byte>, e: DirEntry)
    ensures e.attrs.directory ==> ReadFile(g, d, e) == Err(NotAFile)
    ensures !e.attrs.directory && e.size == 0 ==> ReadFile(g, d, e) == Ok([])
    ensures !e.attrs.directory && e.size > 0 && e.firstCluster < 2 ==> ReadFile(g, d, e) == Err(InvalidCluster)
  {
  }

  /** A chain whose first cluster does not lie inside the buffer is out of bounds to all who read or fill it. */
  lemma ChainOutside(g: Geo, d: seq<byte>, ch: seq<nat>, raw: RawName, n: nat, content: seq<byte>)
    requires g.clusterSize > 0 && ch != [] && ch[0] >= 2 && ClusterStart(g, ch[0]) + g.clusterSize > |d|
    ensures ListChain(g, d, ch) == Err(OutOfBounds) && ReadChain(g, d, ch, n) == Err(OutOfBounds)
    ensures FindInChain(g, d, ch, raw) == Err(OutOfBounds) && FreeInChain(g, d, ch) == Err(OutOfBounds)
    ensures FillChain(g, d, ch, content) == Outcome(Err(OutOfBounds), d)
  {
    ClusterRead(g, d, ch[0]);
  }

  /** Writing an entry succeeds exactly when the entry lies inside the buffer in every copy of the table. */
  lemma {:induction false} EntryWrites(g: Geo, d: seq<byte>, c: nat, v: nat, i: nat)
    ensures SetEntry(g, d, c, v, i).result
            == if forall j :: i <= j < g.numFats ==> EntryOff(g, j, c) + 4 <= |d| then Ok(()) else Err(OutOfBounds)
    decreases g.numFats - i
  {
    if i < g.numFats && EntryOff(g, i, c) + 4 <= |d| {
      EntryWrites(g, Splice(d, EntryOff(g, i, c), ToLe32(v % FAT_RANGE)), c, v, i + 1);
    }
  }

  // ---------- the bytes of a file ----------

  /** The first byte of cluster `c`. */
  function ClusterStart(g: Geo, c: nat): nat
    requires c >= 2
  {
    MulMono(0, c - 2, g.clusterSize);
    g.dataStart + (c - 2) * g.clusterSize
  }

  /** All clusters of `ch` lie inside the buffer. */
  ghost predicate Within(g: Geo, d: seq<byte>, ch: seq<nat>) {
    forall i :: 0 <= i < |ch| ==> ch[i] >= 2 && ClusterStart(g, ch[i]) + g.clusterSize <= |d|
  }

  /** How far into a file byte `j` of its `i`-th cluster is. */
  function FilePos(g: Geo, i: nat, j: nat): (k: nat) {
    MulMono(0, i, g.clusterSize);
    i * g.clusterSize + j
  }

  lemma FilePosStep(g: Geo, i: nat, j: nat)
    ensures FilePos(g, 0, j) == j
    ensures i > 0 ==> FilePos(g, i, j) == FilePos(g, i - 1, j) + g.clusterSize
  {
    if i > 0 { NextMultiple(i - 1, g.clusterSize); }
  }

  /** The first `n` bytes along a chain, or all of them. */
  function Along(n: nat, clusters: nat, size: nat): nat {
    if n <= clusters * size then n else clusters * size
  }

  lemma ReadStep(g: Geo, d: seq<byte>, ch: seq<nat>, n: nat)
    requires g.clusterSize > 0 && n > 0 && ch != [] && Within(g, d, ch)
    ensures var off := ClusterStart(g, ch[0]);
            && off + g.clusterSize <= |d| && Within(g, d, ch[1..])
            && ReadChain(g, d, ch, n)
               == if n <= g.clusterSize then Ok(d[off..off + n])
                  else Prepend(d[off..off + g.clusterSize], ReadChain(g, d, ch[1..], n - g.clusterSize))
  {
    ClusterRead(g, d, ch[0]);
    var off := ClusterStart(g, ch[0]);
    assert off + g.clusterSize <= |d|;
    var data := d[off..off + g.clusterSize];
    if n <= g.clusterSize {
      assert data[..n] == d[off..off + n];
    } else {
      assert data[..g.clusterSize] == data;
    }
  }

  lemma {:induction false} ChainLength(g: Geo, d: seq<byte>, ch: seq<nat>, n: nat)
    requires g.clusterSize > 0 && n > 0 && Within(g, d, ch)
    ensures ReadChain(g, d, ch, n).Ok? && |ReadChain(g, d, ch, n).value| == Along(n, |ch|, g.clusterSize)
    decreases |ch|
  {
    if ch != [] {
      ReadStep(g, d, ch, n);
      NextMultiple(|ch| - 1, g.clusterSize);
      if n > g.clusterSize { ChainLength(g, d, ch[1..], n - g.clusterSize); }
    }
  }

  lemma {:induction false} ChainByte(g: Geo, d: seq<byte>, ch: seq<nat>, n: nat, i: nat, j: nat)
    requires g.clusterSize > 0 && n > 0 && Within(g, d, ch)
    requires i < |ch| && j < g.clusterSize && FilePos(g, i, j) < n
    ensures var r, k, at := ReadChain(g, d, ch, n), FilePos(g, i, j), ClusterStart(g, ch[i]) + j;
            r.Ok? && k < |r.value| && at < |d| && r.value[k] == d[at]
    decreases |ch|
  {
    ReadStep(g, d, ch, n);
    FilePosStep(g, i, j);
    ChainLength(g, d, ch, n);
    hide ReadChain, FilePos, ClusterStart, Along;
    if i > 0 {
      ChainByte(g, d, ch[1..], n - g.clusterSize, i - 1, j);
      assert ch[1..][i - 1] == ch[i];
    }
  }

  /** `read_file` on any image whose walk ends inside the buffer: the file is as long as its size says, or as its chain,
      and byte `j` of the `i`-th cluster is byte `i * cluster size + j` of it. */
  lemma FileIs(g: Geo, d: seq<byte>, e: DirEntry, ch: seq<nat>, i: nat, j: nat)
    requires g.clusterSize > 0 && !e.attrs.directory && e.size > 0 && e.firstCluster >= 2
    requires FollowChain(g, d, e.firstCluster) == Ok(ch) && Within(g, d, ch)
    ensures ReadFile(g, d, e).Ok? && |ReadFile(g, d, e).value| == Along(e.size, |ch|, g.clusterSize)
    ensures i < |ch| && j < g.clusterSize && FilePos(g, i, j) < e.size ==>
              var r, k, at := ReadFile(g, d, e).value, FilePos(g, i, j), ClusterStart(g, ch[i]) + j;
              k < |r| && at < |d| && r[k] == d[at]
  {
    ChainLength(g, d, ch, e.size);
    if i < |ch| && j < g.clusterSize && FilePos(g, i, j) < e.size { ChainByte(g, d, ch, e.size, i, j); }
  }
}

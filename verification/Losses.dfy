/** Where writing is not what it seems: what a caller sees after a lost file, an unreadable name and a file too long
    to read. */
module Losses {
  import opened Wrappers
  import opened Bytes
  import opened Names
  import opened DirEntries
  import opened Chains
  import opened Geometry
  import opened Clusters
  import opened Directories
  import opened Paths
  import opened Engine
  import opened Refinement
  import opened Tree
  import opened Volume
  import opened Writes
  import opened Outcomes
  import opened Frame
  import opened Theorems
  import opened Promises

  // ---------- a name that is never found again ----------

  /** After a write that answered Ok, its path opens to nothing exactly when the name is not readable or starts with
      NUL. */
  lemma UnreadableIsGone(g: Geo, d: seq<byte>, dirs: set<nat>, path: string, parent: nat, raw: RawName,
                         content: seq<byte>)
    requires Targets(g, d, dirs, path, parent, raw) && Succeeds(g, d, dirs, parent, raw, content)
    ensures WriteFile(g, d, path, content).result == Ok(())
    ensures OpenPath(g, WriteFile(g, d, path, content).disk, path) == Ok(None)
            <==> !ReadsBack(SplitParent(path).value.1)
  {
    TargetedWrite(g, d, dirs, path, parent, raw, content);
    SuccessEffect(g, d, dirs, parent, raw, content);
    FirstRawByte(SplitParent(path).value.1);
    if raw[0] == END_MARK {
      OpenNul(g, d, dirs, path, parent, raw, content);
    } else {
      OpenWritten(g, d, dirs, path, parent, raw, content);
    }
  }

  // ---------- a file that is lost ----------

  lemma ReadsFreed(g: Geo, d: seq<byte>, e: DirEntry)
    requires Layout(g, |d|) && e.IsFile() && FIRST_CLUSTER <= e.firstCluster < |View(g, d).fat|
    requires View(g, d).fat[e.firstCluster] == 0
    ensures ReadFile(g, d, e) == if e.size > 0 then Err(InvalidCluster) else Ok([])
  {
    ReadFatEntryView(g, d, e.firstCluster);
  }

  /** What is given back is given back by an entry of the written name. */
  lemma FreedIsShown(g: Geo, d: seq<byte>, dirs: set<nat>, parent: nat, raw: RawName)
    requires Writable(g, d, dirs, parent, raw) && Freed(g, d, dirs, parent, OldName(g, d, parent, raw)) != []
    ensures OldName(g, d, parent, raw) == Decode(raw)
  {
    NoNameIsNotShown(DirSlots(View(g, d), parent));
  }

  /** An overwrite that gives clusters back and then finds too few answers NoSpaceLeft; the path still opens to the
      old entry, and reading it fails, unless it was empty. */
  lemma LostFile(g: Geo, d: seq<byte>, dirs: set<nat>, path: string, parent: nat, raw: RawName, content: seq<byte>)
    requires Targets(g, d, dirs, path, parent, raw) && Readable(SplitParent(path).value.1)
    requires !Enough(g, d, dirs, parent, OldName(g, d, parent, raw), content)
    requires Freed(g, d, dirs, parent, OldName(g, d, parent, raw)) != []
    ensures HasEntry(Before(g, d, dirs), parent, Decode(raw))
    ensures var o := WriteFile(g, d, path, content);
            var e := Before(g, d, dirs)[parent][Decode(raw)];
            && o.result == Err(NoSpaceLeft)
            && OpenPath(g, o.disk, path) == Ok(Some(e))
            && ReadFileByPath(g, o.disk, path) == if e.size > 0 then Err(InvalidCluster) else Ok(Some([]))
  {
    var name := Decode(raw);
    FreedIsShown(g, d, dirs, parent, raw);
    var e: DirEntry := Before(g, d, dirs)[parent][name];
    var d' := WriteInDir(g, d, parent, raw, content).disk;
    CleanIsNotDot(raw);
    TargetedWrite(g, d, dirs, path, parent, raw, content);
    WriteInDirIs(g, d, dirs, parent, raw, content);
    LostEntry(g, d, dirs, parent, name);
    OpenLost(g, d, dirs, path, parent, raw, content);
    ReadsFreed(g, d', e);
    ReadByPathIs(g, d', path, e);
  }

  lemma LostEntry(g: Geo, d: seq<byte>, dirs: set<nat>, parent: nat, name: string)
    requires WellFormed(g, d, dirs) && parent in dirs && !IsDotName(name) && Freed(g, d, dirs, parent, name) != []
    ensures HasEntry(Before(g, d, dirs), parent, name)
    ensures var e: DirEntry := Before(g, d, dirs)[parent][name];
            var fat := View(g, ReleasedDisk(g, d, dirs, parent, name)).fat;
            e.IsFile() && FIRST_CLUSTER <= e.firstCluster < |fat| && fat[e.firstCluster] == 0
  {
    var fat, freed := View(g, d).fat, Freed(g, d, dirs, parent, name);
    ReleasedState(g, d, dirs, parent, name);
    ChainFromSpec(fat, StartOf(Before(g, d, dirs), FileClaim(parent, name)));
    assert freed[0] in freed && InRange(fat, freed[0]);
  }

  lemma OpenLost(g: Geo, d: seq<byte>, dirs: set<nat>, path: string, parent: nat, raw: RawName, content: seq<byte>)
    requires Targets(g, d, dirs, path, parent, raw) && Readable(SplitParent(path).value.1)
    requires !Succeeds(g, d, dirs, parent, raw, content)
    ensures OpenPath(g, WriteInDir(g, d, parent, raw, content).disk, path)
            == Ok(Get(Before(g, d, dirs)[parent], Decode(raw)))
  {
    RefusedCatalog(g, d, dirs, parent, raw, content);
    OpenTarget(g, d, dirs, path, parent, raw, content);
    NameRoundTrip(SplitParent(path).value.1);
  }

  // ---------- a file too long to read ----------

  /** Following a chain with fuel for less than its length cuts it off, and that is no error. */
  lemma {:induction false} FollowCut(g: Geo, d: seq<byte>, ch: seq<nat>, fuel: nat)
    requires Layout(g, |d|) && IsChain(View(g, d).fat, ch) && fuel <= |ch|
    ensures FollowFrom(g, d, ch[0], fuel) == Ok(ch[..fuel])
    decreases fuel
  {
    ChainStep(View(g, d).fat, ch, 0);
    ReadFatEntryView(g, d, ch[0]);
    if fuel > 0 {
      if |ch| == 1 {
        assert ch[..fuel] == [ch[0]];
      } else {
        FollowCut(g, d, ch[1..], fuel - 1);
        assert ch[..fuel] == [ch[0]] + ch[1..][..fuel - 1];
      }
    }
  }

  lemma {:induction false} GatherLength(data: seq<seq<byte>>, ch: seq<nat>, n: nat, size: nat)
    requires forall i :: 0 <= i < |ch| ==> ch[i] < |data| && |data[ch[i]]| == size
    requires n <= |ch| * size && size > 0
    ensures |Gather(data, ch, n, size)| == n
    decreases |ch|
  {
    if ch != [] && n != 0 {
      NextMultiple(|ch| - 1, size);
      GatherLength(data, ch[1..], n - Min(n, size), size);
    }
  }

  /** The first `m` clusters of a chain hold the first `m` clusters' worth of what the chain holds. */
  lemma {:induction false} GatherCut(data: seq<seq<byte>>, ch: seq<nat>, m: nat, n: nat, size: nat)
    requires forall i :: 0 <= i < |ch| ==> ch[i] < |data| && |data[ch[i]]| == size
    requires m <= |ch| && m * size <= n <= |ch| * size && size > 0
    ensures m * size <= |Gather(data, ch, n, size)|
    ensures Gather(data, ch[..m], n, size) == Gather(data, ch, n, size)[..m * size]
    decreases m
  {
    GatherLength(data, ch, n, size);
    if m > 0 {
      NextMultiple(m - 1, size);
      NextMultiple(|ch| - 1, size);
      GatherCut(data, ch[1..], m - 1, n - size, size);
      assert ch[..m][0] == ch[0] && ch[..m][1..] == ch[1..][..m - 1];
      var head, rest := data[ch[0]][..size], Gather(data, ch[1..], n - size, size);
      assert (head + rest)[..m * size] == head + rest[..(m - 1) * size];
    }
  }

  /** A file of more than 4096 clusters is written, answers Ok, and reads back as its first 4096 clusters only. */
  lemma LongFileReadsShort(g: Geo, d: seq<byte>, dirs: set<nat>, path: string, parent: nat, raw: RawName,
                           content: seq<byte>)
    requires Targets(g, d, dirs, path, parent, raw) && Succeeds(g, d, dirs, parent, raw, content)
    requires ReadsBack(SplitParent(path).value.1) && Needed(g, content) > MAX_CHAIN && |content| < U32
    ensures var o := WriteFile(g, d, path, content);
            && o.result == Ok(()) && MAX_CHAIN * g.clusterSize < |content|
            && ReadFileByPath(g, o.disk, path) == Ok(Some(content[..MAX_CHAIN * g.clusterSize]))
  {
    var d' := WriteInDir(g, d, parent, raw, content).disk;
    var e := NewEntry(raw, UsedFor(g, d, dirs, parent, raw, content), content);
    TargetedWrite(g, d, dirs, path, parent, raw, content);
    SuccessEffect(g, d, dirs, parent, raw, content);
    FirstRawByte(SplitParent(path).value.1);
    OpenWritten(g, d, dirs, path, parent, raw, content);
    ReadLong(g, d, dirs, parent, raw, content);
    ReadByPathIs(g, d', path, e);
  }

  lemma LongIsLonger(g: Geo, content: seq<byte>)
    requires g.clusterSize > 0 && Needed(g, content) > MAX_CHAIN
    ensures MAX_CHAIN * g.clusterSize < |content|
  {
    DivCeilSpec(|content|, g.clusterSize);
    MulMono(MAX_CHAIN + 1, Needed(g, content), g.clusterSize);
    NextMultiple(MAX_CHAIN, g.clusterSize);
  }

  lemma ReadLong(g: Geo, d: seq<byte>, dirs: set<nat>, parent: nat, raw: RawName, content: seq<byte>)
    requires Succeeds(g, d, dirs, parent, raw, content) && Needed(g, content) > MAX_CHAIN && |content| < U32
    ensures MAX_CHAIN * g.clusterSize < |content|
    ensures var e := NewEntry(raw, UsedFor(g, d, dirs, parent, raw, content), content);
            ReadFile(g, WriteInDir(g, d, parent, raw, content).disk, e) == Ok(content[..MAX_CHAIN * g.clusterSize])
  {
    var used := UsedFor(g, d, dirs, parent, raw, content);
    var d' := WriteInDir(g, d, parent, raw, content).disk;
    LongIsLonger(g, content);
    SizeField(|content|);
    LongChain(g, d, dirs, parent, raw, content);
    SuccessBytes(g, d, dirs, parent, raw, content);
    FollowCut(g, d', used, MAX_CHAIN);
    ReadChainView(g, d', used[..MAX_CHAIN], |content|);
    GatherCut(View(g, d').data, used, MAX_CHAIN, |content|, g.clusterSize);
  }

  lemma LongChain(g: Geo, d: seq<byte>, dirs: set<nat>, parent: nat, raw: RawName, content: seq<byte>)
    requires Succeeds(g, d, dirs, parent, raw, content) && content != []
    ensures var used := UsedFor(g, d, dirs, parent, raw, content);
            var d' := WriteInDir(g, d, parent, raw, content).disk;
            && Layout(g, |d'|) && IsChain(View(g, d').fat, used) && AllInRange(View(g, d').fat, used)
            && FIRST_CLUSTER <= used[0]
  {
    var used := UsedFor(g, d, dirs, parent, raw, content);
    NeededIsZero(g, content);
    SuccessEffect(g, d, dirs, parent, raw, content);
    StoredVolFacts(g, d, dirs, parent, OldName(g, d, parent, raw), content);
    LinkMakesChain(Zero(View(g, d).fat, Freed(g, d, dirs, parent, OldName(g, d, parent, raw))), used);
    assert InRange(View(g, d).fat, used[0]);
  }
}

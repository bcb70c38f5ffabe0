/** Reading back what was written, and reading everything else as before. */
module Promises {
  import opened Wrappers
  import opened Bytes
  import opened Names
  import opened DirEntries
  import opened Chains
  import opened Geometry
  import opened Clusters
  import opened Directories
  import opened DirUpdates
  import opened Paths
  import opened Engine
  import opened Tree
  import opened Volume
  import opened Lookup
  import opened Writes
  import opened Outcomes
  import opened Frame
  import opened Theorems

  // ---------- only readable names are ever read back ----------

  /** A clean raw name decodes to an accepted name only when that name is readable. */
  lemma DecodeIsReadable(raw: RawName, name: string)
    requires Clean(raw) && Encode(name).Ok? && Decode(raw) == Upper(name)
    ensures Readable(name)
  {
    var tb, te := TrimEnd(raw[..8]), TrimEnd(raw[8..]);
    var base, ext := BaseOf(name), ExtOf(name);
    DotMarksExtension(raw);
    UpperSplit(name);
    UpperOfSplit(name);
    UpperKeepsDots(name);
    UpperKeepsDots(base);
    if '.' in name {
      DottedInjective(Chars(tb), Chars(te), Upper(base), Upper(ext));
      TrimmedText(te, ext);
      TrimmedText(tb, base);
    } else {
      TrimmedText(tb, base);
    }
  }

  lemma UpperKeepsDots(s: string)
    ensures '.' in Upper(s) <==> '.' in s
  {
    if '.' in s {
      var i :| 0 <= i < |s| && s[i] == '.';
      assert Upper(s)[i] == '.';
    }
    if '.' in Upper(s) {
      var i :| 0 <= i < |s| && Upper(s)[i] == '.';
      assert s[i] == '.';
    }
  }

  lemma TrimmedText(t: seq<byte>, s: string)
    requires (t == [] || t[|t| - 1] != SPACE) && Chars(t) == Upper(s)
    ensures |s| == |t| && (s != "" ==> s[|s| - 1] != ' ')
  {
    assert |t| == |Chars(t)| == |s|;
    if s != "" {
      assert Chars(t)[|t| - 1] == Upper(s)[|s| - 1];
    }
  }

  /** A directory with clean names holds no entry under an accepted name that is not readable. */
  lemma UnreadableNotFound(slots: seq<Slot>, name: string)
    requires NamesClean(slots) && Encode(name).Ok? && !Readable(name)
    ensures Upper(name) !in ByName(slots)
  {
    ByNameMember(slots, Upper(name));
    if j :| 0 <= j < |slots| && KeyOf(slots[j]) == Some(Upper(name)) {
      var raw := RawOf(slots[j]);
      if Clean(raw) {
        UpperOfClean(raw);
        DecodeIsReadable(raw, name);
      } else {
        DotDecodes();
        UpperIsNotDot(name);
      }
      assert false;
    }
  }

  lemma DotIsRejected(name: string)
    requires IsDotName(name)
    ensures Encode(name) == Err(InvalidName)
  {
    LastIndexUnique(name, '.', |name| - 1);
    var base := BaseOf(name);
    assert base == if name == "." then "" else ".";
  }

  lemma UpperIsNotDot(name: string)
    requires Encode(name).Ok?
    ensures !IsDotName(Upper(name))
  {
    if IsDotName(Upper(name)) {
      forall i | 0 <= i < |name| ensures name[i] == Upper(name)[i] {
        assert Upper(name)[i] == (if Upper(name) == "." then "." else "..")[i] == '.';
      }
      assert name == Upper(name);
      DotIsRejected(name);
    }
  }

  // ---------- lengths ----------

  lemma {:induction false} FollowLength(g: Geo, d: seq<byte>, c: nat, fuel: nat)
    requires FollowFrom(g, d, c, fuel).Ok?
    ensures |FollowFrom(g, d, c, fuel).value| <= fuel
    decreases fuel
  {
    if fuel > 0 && ReadFatEntry(g, d, c).value < EOC_MIN {
      FollowLength(g, d, ReadFatEntry(g, d, c).value, fuel - 1);
    }
  }

  lemma {:induction false} ReadLength(g: Geo, d: seq<byte>, ch: seq<nat>, n: nat)
    requires ReadChain(g, d, ch, n).Ok?
    ensures |ReadChain(g, d, ch, n).value| <= n
    ensures |ReadChain(g, d, ch, n).value| <= |ch| * g.clusterSize
    decreases |ch|
  {
    if ch != [] {
      var take := Min(n, g.clusterSize);
      NextMultiple(|ch| - 1, g.clusterSize);
      if n != take { ReadLength(g, d, ch[1..], n - take); }
    }
  }

  /** No reader returns more than the entry's size, nor more than 4096 clusters. */
  lemma ReadFileLength(g: Geo, d: seq<byte>, e: DirEntry)
    requires ReadFile(g, d, e).Ok?
    ensures |ReadFile(g, d, e).value| <= e.size
    ensures |ReadFile(g, d, e).value| <= MAX_CHAIN * g.clusterSize
  {
    if e.size > 0 {
      var ch := FollowChain(g, d, e.firstCluster).value;
      FollowLength(g, d, e.firstCluster, MAX_CHAIN);
      ReadLength(g, d, ch, e.size);
      MulMono(|ch|, MAX_CHAIN, g.clusterSize);
    }
  }

  lemma TooLongToRead(g: Geo, d: seq<byte>, e: DirEntry, content: seq<byte>)
    requires e.size == |content| % U32 && !Fits(g, content)
    ensures ReadFile(g, d, e) != Ok(content)
  {
    if ReadFile(g, d, e).Ok? { ReadFileLength(g, d, e); }
  }

  // ---------- 2. reading back ----------

  /** Opening a path whose parent is the directory `dir` looks its last component up there. */
  lemma OpenAt(g: Geo, d: seq<byte>, dirs: set<nat>, path: string, parts: seq<string>, name: string, dir: nat)
    requires Navigable(g, d, dirs) && Absolute(path) && Components(path) == parts + [name]
    requires NoDots(parts) && !IsDotName(Upper(name))
    requires DirOf(CatalogOf(View(g, d), dirs), g.root, parts) == Some(dir) && dir in dirs
    ensures OpenPath(g, d, path) == Ok(Get(CatalogOf(View(g, d), dirs)[dir], Upper(name)))
  {
    hide View, CatalogOf, OpenPath;
    DirOfPassable(CatalogOf(View(g, d), dirs), g.root, parts, name);
    OpenPathView(g, d, dirs, path);
  }

  /** After any write, walking to its path finds what the parent's map then holds under its name. */
  lemma OpenTarget(g: Geo, d: seq<byte>, dirs: set<nat>, path: string, parent: nat, raw: RawName, content: seq<byte>)
    requires Targets(g, d, dirs, path, parent, raw)
    ensures var d' := WriteInDir(g, d, parent, raw, content).disk;
            && Layout(g, |d'|)
            && OpenPath(g, d', path) == Ok(Get(Before(g, d', dirs)[parent], Upper(SplitParent(path).value.1)))
  {
    var d' := WriteInDir(g, d, parent, raw, content).disk;
    var (pp, name) := SplitParent(path).value;
    SplitParentComponents(path);
    WriteKeepsNavigable(g, d, dirs, parent, raw, content);
    ParentKept(g, d, dirs, path, parent, raw, content);
    UpperIsNotDot(name);
    OpenAt(g, d', dirs, path, Components(pp), name, parent);
  }

  /** After a successful write under a name that does not start with NUL, that is the new entry, or nothing if the name
      is not readable. */
  lemma OpenWritten(g: Geo, d: seq<byte>, dirs: set<nat>, path: string, parent: nat, raw: RawName, content: seq<byte>)
    requires Targets(g, d, dirs, path, parent, raw) && Enters(g, d, dirs, parent, raw, content)
    ensures var name := SplitParent(path).value.1;
            OpenPath(g, WriteInDir(g, d, parent, raw, content).disk, path)
            == Ok(if Readable(name) then Some(NewEntry(raw, UsedFor(g, d, dirs, parent, raw, content), content))
                  else None)
  {
    var name := SplitParent(path).value.1;
    OpenTarget(g, d, dirs, path, parent, raw, content);
    SuccessCatalog(g, d, dirs, parent, raw, content);
    NameRoundTrip(name);
    if !Readable(name) { UnreadableNotFound(DirSlots(View(g, d), parent), name); }
  }

  /** No directory shows a name that starts with NUL. */
  lemma NulNotShown(g: Geo, d: seq<byte>, dirs: set<nat>, parent: nat, name: string)
    requires Encode(name).Ok? && Writable(g, d, dirs, parent, Encode(name).value)
    requires Encode(name).value[0] == END_MARK
    ensures Upper(name) !in Before(g, d, dirs)[parent]
  {
    NameRoundTrip(name);
    if Readable(name) {
      NulReplacesNothing(g, d, dirs, parent, Encode(name).value);
    } else {
      UnreadableNotFound(DirSlots(View(g, d), parent), name);
    }
  }

  /** So a path that ends in such a name opens to nothing, whatever a write to it answers. */
  lemma OpenNul(g: Geo, d: seq<byte>, dirs: set<nat>, path: string, parent: nat, raw: RawName, content: seq<byte>)
    requires Targets(g, d, dirs, path, parent, raw) && raw[0] == END_MARK
    ensures OpenPath(g, WriteInDir(g, d, parent, raw, content).disk, path) == Ok(None)
  {
    var cat, cat' := Before(g, d, dirs), Before(g, WriteInDir(g, d, parent, raw, content).disk, dirs);
    OpenTarget(g, d, dirs, path, parent, raw, content);
    NulNotShown(g, d, dirs, parent, SplitParent(path).value.1);
    NulMakesNoName(g, d, dirs, parent, raw, content);
  }

  /** A write under a name that starts with NUL makes no name. */
  lemma NulMakesNoName(g: Geo, d: seq<byte>, dirs: set<nat>, parent: nat, raw: RawName, content: seq<byte>)
    requires Writable(g, d, dirs, parent, raw) && raw[0] == END_MARK
    ensures |WriteInDir(g, d, parent, raw, content).disk| == |d|
    ensures Fewer(Before(g, d, dirs), Before(g, WriteInDir(g, d, parent, raw, content).disk, dirs))
  {
    if Succeeds(g, d, dirs, parent, raw, content) {
      CutIsFewer(g, d, dirs, parent, raw, content);
    } else {
      RefusedCatalog(g, d, dirs, parent, raw, content);
    }
  }

  lemma ReadByPathIs(g: Geo, d: seq<byte>, path: string, e: DirEntry)
    requires OpenPath(g, d, path) == Ok(Some(e))
    ensures ReadFileByPath(g, d, path)
            == match ReadFile(g, d, e) case Err(x) => Err(x) case Ok(bytes) => Ok(Some(bytes))
  {
  }

  /** A write that answered Ok reads back under its path exactly when the name is readable and does not start with NUL,
      and the content fits. */
  lemma TargetRoundTrip(g: Geo, d: seq<byte>, dirs: set<nat>, path: string, parent: nat, raw: RawName,
                        content: seq<byte>)
    requires Targets(g, d, dirs, path, parent, raw) && Succeeds(g, d, dirs, parent, raw, content)
    ensures ReadFileByPath(g, WriteInDir(g, d, parent, raw, content).disk, path) == Ok(Some(content))
            <==> raw[0] != END_MARK && Readable(SplitParent(path).value.1) && Fits(g, content)
  {
    var d' := WriteInDir(g, d, parent, raw, content).disk;
    var e := NewEntry(raw, UsedFor(g, d, dirs, parent, raw, content), content);
    if raw[0] == END_MARK {
      OpenNul(g, d, dirs, path, parent, raw, content);
    } else {
      OpenWritten(g, d, dirs, path, parent, raw, content);
      if Readable(SplitParent(path).value.1) {
        ReadByPathIs(g, d', path, e);
        if Fits(g, content) {
          SuccessContent(g, d, dirs, parent, raw, content);
          ReadFileView(g, d', e);
        } else {
          TooLongToRead(g, d', e, content);
        }
      }
    }
  }

  /** A name that reads back: readable, and not starting with NUL. */
  predicate ReadsBack(name: string) {
    Readable(name) && name != "" && name[0] as int != 0
  }

  /** Reading back, for the whole call: through the same parameters and after parsing the header again. */
  lemma RoundTrip(p: BpbParams, d: seq<byte>, dirs: set<nat>, path: string, content: seq<byte>)
    requires ParseBpb(d) == Ok(p) && Ready(GeoOf(p), d, dirs, path)
    requires WriteFile(GeoOf(p), d, path, content).result.Ok?
    ensures var d' := WriteFile(GeoOf(p), d, path, content).disk;
            && ParseBpb(d') == Ok(p)
            && SplitParent(path).Ok?
            && (ReadFileByPath(GeoOf(p), d', path) == Ok(Some(content))
                <==> ReadsBack(SplitParent(path).value.1) && Fits(GeoOf(p), content))
  {
    var g := GeoOf(p);
    WriteAnswers(g, d, dirs, path, content);
    if !Absolute(path) || path == "/" || !SplitParent(path).Ok? || Encode(SplitParent(path).value.1).Err?
       || ParentCluster(g, d, SplitParent(path).value.0).Err? {
      UntargetedWrite(g, d, path, content);
    } else {
      var parent, raw := ParentCluster(g, d, SplitParent(path).value.0).value, Encode(SplitParent(path).value.1).value;
      ReadyTargets(g, d, dirs, path);
      TargetedWrite(g, d, dirs, path, parent, raw, content);
      TargetSucceeds(g, d, dirs, path, parent, raw, content);
      TargetRoundTrip(g, d, dirs, path, parent, raw, content);
      FirstRawByte(SplitParent(path).value.1);
      SuccessEffect(g, d, dirs, parent, raw, content);
      ParseBpbFrame(d, WriteFile(g, d, path, content).disk);
    }
  }

  // ---------- 3. every other path ----------

  /** A file outside the written name reads the same bytes. */
  lemma OtherFileSame(g: Geo, d: seq<byte>, d': seq<byte>, dirs: set<nat>, dir: nat, names: set<string>, c: Claim)
    requires WellFormed(g, d, dirs) && |d'| == |d|
    requires Preserved(View(g, d), View(g, d'), Before(g, d, dirs), Before(g, d', dirs), dir, names)
    requires c.FileClaim? && IsClaim(Before(g, d, dirs), c) && !IsNamed(c, dir, names)
    ensures Sized(View(g, d), g.clusterSize) && Sized(View(g, d'), g.clusterSize)
    ensures var e := Before(g, d, dirs)[c.dir][c.name];
            && FileBytes(View(g, d'), g.clusterSize, e) == FileBytes(View(g, d), g.clusterSize, e)
            && ReadFile(g, d', e) == ReadFile(g, d, e)
  {
    var v, v' := View(g, d), View(g, d');
    var cat := Before(g, d, dirs);
    var e: DirEntry := cat[c.dir][c.name];
    ViewSized(g, d);
    ViewSized(g, d');
    OtherClaimSame(v, v', cat, Before(g, d', dirs), dir, names, c);
    FileBytesKept(v, v', g.clusterSize, e);
    assert HasEntry(cat, c.dir, c.name) && FileOk(v.fat, g.clusterSize, e);
    ChainFromSpec(v.fat, e.firstCluster);
    ChainFromSpec(v'.fat, e.firstCluster);
    ReadFileView(g, d, e);
    ReadFileView(g, d', e);
  }

  lemma OtherClaimSame(v: Vol, v': Vol, cat: Catalog, cat': Catalog, dir: nat, names: set<string>, c: Claim)
    requires Preserved(v, v', cat, cat', dir, names)
    requires c.FileClaim? && IsClaim(cat, c) && !IsNamed(c, dir, names)
    ensures ChainFrom(v'.fat, cat[c.dir][c.name].firstCluster) == ChainFrom(v.fat, cat[c.dir][c.name].firstCluster)
    ensures SameBytes(v, v', ChainFrom(v.fat, cat[c.dir][c.name].firstCluster))
  {
    assert ClaimChain(v'.fat, cat', c) == ClaimChain(v.fat, cat, c);
    assert Get(cat'[c.dir], c.name) == Get(cat[c.dir], c.name);
  }

  /** A path that stays in the tree and neither is nor goes through one of `names` of the directory at `at`. */
  ghost predicate Avoids(cat: Catalog, root: nat, q: string, at: seq<string>, names: set<string>) {
    && Absolute(q) && NoDots(Components(q)) && Passable(cat, root, Components(q))
    && !GoesThrough(Components(q), at, names)
  }

  /** Two images whose catalogs differ at those names only open such a path alike. */
  lemma OpenSame(g: Geo, d: seq<byte>, d': seq<byte>, dirs: set<nat>, at: seq<string>, dir: nat, names: set<string>,
                 q: string)
    requires Navigable(g, d, dirs) && Navigable(g, d', dirs) && Rooted(CatalogOf(View(g, d), dirs), g.root)
    requires SameElsewhere(CatalogOf(View(g, d), dirs), CatalogOf(View(g, d'), dirs), dir, names)
    requires DirOf(CatalogOf(View(g, d), dirs), g.root, at) == Some(dir)
    requires Avoids(CatalogOf(View(g, d), dirs), g.root, q, at, names)
    ensures OpenPath(g, d', q) == OpenPath(g, d, q)
    ensures OpenPath(g, d, q)
            == Ok(if Components(q) == [] then None else Resolve(CatalogOf(View(g, d), dirs), g.root, Components(q)))
  {
    var parts := Components(q);
    if parts != [] {
      WholeWalkSame(CatalogOf(View(g, d), dirs), CatalogOf(View(g, d'), dirs), g.root, at, dir, names, parts);
    }
    OpenPathView(g, d, dirs, q);
    OpenPathView(g, d', dirs, q);
  }

  lemma WholeWalkSame(cat: Catalog, cat': Catalog, root: nat, at: seq<string>, dir: nat, names: set<string>,
                      parts: seq<string>)
    requires Rooted(cat, root) && SameElsewhere(cat, cat', dir, names) && DirOf(cat, root, at) == Some(dir)
    requires parts != [] && NoDots(parts) && !GoesThrough(parts, at, names) && Passable(cat, root, parts)
    ensures Resolve(cat', root, parts) == Resolve(cat, root, parts) && Passable(cat', root, parts)
  {
    assert [] + parts == parts;
    WalkSame(cat, cat', root, at, dir, names, [], root, parts);
  }

  /** Whatever the write answers, such a path opens as before. */
  lemma TargetOtherOpen(g: Geo, d: seq<byte>, dirs: set<nat>, path: string, parent: nat, raw: RawName,
                        content: seq<byte>, q: string)
    requires Targets(g, d, dirs, path, parent, raw)
    requires Avoids(Before(g, d, dirs), g.root, q, Components(SplitParent(path).value.0),
                    Touched(g, d, dirs, parent, raw, content))
    ensures var d' := WriteInDir(g, d, parent, raw, content).disk;
            && OpenPath(g, d', q) == OpenPath(g, d, q)
            && OpenPath(g, d, q)
               == Ok(if Components(q) == [] then None else Resolve(Before(g, d, dirs), g.root, Components(q)))
  {
    WellFormedIsNavigable(g, d, dirs);
    WriteKeepsNavigable(g, d, dirs, parent, raw, content);
    WriteFrame(g, d, dirs, parent, raw, content);
    TreeIsRooted(View(g, d).fat, g.clusterSize, g.root, Before(g, d, dirs));
    OpenSame(g, d, WriteInDir(g, d, parent, raw, content).disk, dirs,
             Components(SplitParent(path).value.0), parent, Touched(g, d, dirs, parent, raw, content), q);
  }

  /** Whatever the write answers, a path that does not go through the written one opens and reads as before. */
  lemma TargetOtherPath(g: Geo, d: seq<byte>, dirs: set<nat>, path: string, parent: nat, raw: RawName,
                        content: seq<byte>, q: string)
    requires Targets(g, d, dirs, path, parent, raw)
    requires Avoids(Before(g, d, dirs), g.root, q, Components(SplitParent(path).value.0),
                    Touched(g, d, dirs, parent, raw, content))
    ensures var d' := WriteInDir(g, d, parent, raw, content).disk;
            && OpenPath(g, d', q) == OpenPath(g, d, q)
            && ReadFileByPath(g, d', q) == ReadFileByPath(g, d, q)
  {
    var d' := WriteInDir(g, d, parent, raw, content).disk;
    var cat := Before(g, d, dirs);
    var at, parts := Components(SplitParent(path).value.0), Components(q);
    TargetOtherOpen(g, d, dirs, path, parent, raw, content, q);
    if parts != [] && Resolve(cat, g.root, parts).Some? && Resolve(cat, g.root, parts).value.IsFile() {
      WriteFrame(g, d, dirs, parent, raw, content);
      ResolvedFileSame(g, d, d', dirs, at, parent, Touched(g, d, dirs, parent, raw, content), parts);
    }
    SameRead(g, d, d', q);
  }

  lemma ResolvedFileSame(g: Geo, d: seq<byte>, d': seq<byte>, dirs: set<nat>, at: seq<string>, dir: nat,
                         names: set<string>, parts: seq<string>)
    requires WellFormed(g, d, dirs) && |d'| == |d| && DirOf(Before(g, d, dirs), g.root, at) == Some(dir)
    requires Preserved(View(g, d), View(g, d'), Before(g, d, dirs), Before(g, d', dirs), dir, names)
    requires parts != [] && NoDots(parts) && !GoesThrough(parts, at, names)
    requires Resolve(Before(g, d, dirs), g.root, parts).Some?
             && Resolve(Before(g, d, dirs), g.root, parts).value.IsFile()
    ensures var e := Resolve(Before(g, d, dirs), g.root, parts).value;
            ReadFile(g, d', e) == ReadFile(g, d, e)
  {
    var cat := Before(g, d, dirs);
    TreeIsRooted(View(g, d).fat, g.clusterSize, g.root, cat);
    ResolvedElsewhere(cat, g.root, at, dir, names, parts);
    var c := FileClaim(DirOf(cat, g.root, parts[..|parts| - 1]).value, Upper(parts[|parts| - 1]));
    assert IsClaim(cat, c);
    OtherFileSame(g, d, d', dirs, dir, names, c);
  }

  lemma SameRead(g: Geo, d: seq<byte>, d': seq<byte>, q: string)
    requires OpenPath(g, d', q) == OpenPath(g, d, q)
    requires OpenPath(g, d, q).Ok? && OpenPath(g, d, q).value.Some? && OpenPath(g, d, q).value.value.IsFile() ==>
               ReadFile(g, d', OpenPath(g, d, q).value.value) == ReadFile(g, d, OpenPath(g, d, q).value.value)
    ensures ReadFileByPath(g, d', q) == ReadFileByPath(g, d, q)
  {
  }

  /** An entry found by a path that avoids the written one is another entry. */
  lemma ResolvedElsewhere(cat: Catalog, root: nat, at: seq<string>, dir: nat, names: set<string>,
                          parts: seq<string>)
    requires Rooted(cat, root) && parts != [] && NoDots(parts) && DirOf(cat, root, at) == Some(dir)
    requires Resolve(cat, root, parts).Some? && !GoesThrough(parts, at, names)
    ensures var here := DirOf(cat, root, parts[..|parts| - 1]);
            && here.Some? && HasEntry(cat, here.value, Upper(parts[|parts| - 1]))
            && !IsNamed(FileClaim(here.value, Upper(parts[|parts| - 1])), dir, names)
  {
    var init, last := parts[..|parts| - 1], parts[|parts| - 1];
    assert parts == init + [last];
    if DirOf(cat, root, init) == Some(dir) { StepGoesThrough(cat, root, at, dir, init, [last], names); }
  }

  /** The same for the whole call, with the header parsed again. */
  lemma OtherPathsKept(p: BpbParams, d: seq<byte>, dirs: set<nat>, path: string, content: seq<byte>, q: string)
    requires ParseBpb(d) == Ok(p) && Ready(GeoOf(p), d, dirs, path)
    requires SplitParent(path).Ok? && Encode(SplitParent(path).value.1).Ok?
             && ParentCluster(GeoOf(p), d, SplitParent(path).value.0).Ok? ==>
               Avoids(Before(GeoOf(p), d, dirs), GeoOf(p).root, q, Components(SplitParent(path).value.0),
                      Touched(GeoOf(p), d, dirs, ParentCluster(GeoOf(p), d, SplitParent(path).value.0).value,
                              Encode(SplitParent(path).value.1).value, content))
    ensures var d' := WriteFile(GeoOf(p), d, path, content).disk;
            && ParseBpb(d') == Ok(p)
            && OpenPath(GeoOf(p), d', q) == OpenPath(GeoOf(p), d, q)
            && ReadFileByPath(GeoOf(p), d', q) == ReadFileByPath(GeoOf(p), d, q)
  {
    var g := GeoOf(p);
    if !Absolute(path) || path == "/" || !SplitParent(path).Ok? || Encode(SplitParent(path).value.1).Err?
       || ParentCluster(g, d, SplitParent(path).value.0).Err? {
      UntargetedWrite(g, d, path, content);
    } else {
      var parent, raw := ParentCluster(g, d, SplitParent(path).value.0).value, Encode(SplitParent(path).value.1).value;
      ReadyTargets(g, d, dirs, path);
      TargetedWrite(g, d, dirs, path, parent, raw, content);
      TargetOtherPath(g, d, dirs, path, parent, raw, content, q);
      WriteFrame(g, d, dirs, parent, raw, content);
      ParseBpbFrame(d, WriteFile(g, d, path, content).disk);
    }
  }

  // ---------- 4. the parent's listing ----------

  /** After a successful write the parent lists what it listed before, with that one entry replaced where it was, or
      inserted where the first free slot is; under a name that starts with NUL, what the slots before the first free one
      list. Every other directory lists what it listed. */
  lemma ParentListing(g: Geo, d: seq<byte>, dirs: set<nat>, parent: nat, raw: RawName, content: seq<byte>)
    requires Succeeds(g, d, dirs, parent, raw, content)
    ensures var d' := WriteInDir(g, d, parent, raw, content).disk;
            var grid := DirGrid(View(g, d), parent);
            && ListDir(g, d, parent) == Ok(Listing(Live(grid)))
            && ListDir(g, d', parent).Ok?
            && (if raw[0] == END_MARK then ListDir(g, d', parent).value == Listing(SlotsBefore(grid, raw))
                else ListingUpdated(grid, raw, ListDir(g, d', parent).value,
                                    NewEntry(raw, UsedFor(g, d, dirs, parent, raw, content), content)))
            && forall c :: c in dirs && c != parent ==> ListDir(g, d', c) == ListDir(g, d, c)
  {
    var d' := WriteInDir(g, d, parent, raw, content).disk;
    NewGridFacts(g, d, dirs, parent, raw, content);
    SuccessEffect(g, d, dirs, parent, raw, content);
    forall c | c in dirs
      ensures ListDir(g, d, c) == Ok(Listing(DirSlots(View(g, d), c)))
      ensures ListDir(g, d', c) == Ok(Listing(DirSlots(View(g, d'), c)))
      ensures c != parent ==> DirGrid(View(g, d'), c) == DirGrid(View(g, d), c)
    {
      SuccessGrids(g, d, dirs, parent, raw, content, c);
      ListDirView(g, d, c);
      ListDirView(g, d', c);
    }
  }
}

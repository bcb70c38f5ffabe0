/** What `write_file_by_path` promises: its answers, reading back, and everything it leaves alone. */
module Theorems {
  import opened Wrappers
  import opened Bytes
  import opened Names
  import opened DirEntries
  import opened Chains
  import opened Geometry
  import opened Directories
  import opened Paths
  import opened Engine
  import opened Tree
  import opened Volume
  import opened Lookup
  import opened Writes
  import opened Outcomes
  import opened Frame

  // ---------- where a write goes ----------

  /** The parent path of a write walks through directories only. */
  ghost predicate StaysInside(g: Geo, d: seq<byte>, dirs: set<nat>, path: string)
    requires Layout(g, |d|)
  {
    Absolute(path) && path != "/" && SplitParent(path).Ok? ==>
      var parts := Components(SplitParent(path).value.0);
      NoDots(parts) && Passable(Before(g, d, dirs), g.root, parts)
  }

  ghost predicate Ready(g: Geo, d: seq<byte>, dirs: set<nat>, path: string) {
    WellFormed(g, d, dirs) && StaysInside(g, d, dirs, path)
  }

  /** The write is decided by the directory `parent` and the raw name `raw`. */
  ghost predicate Targets(g: Geo, d: seq<byte>, dirs: set<nat>, path: string, parent: nat, raw: RawName) {
    && Writable(g, d, dirs, parent, raw)
    && Absolute(path) && path != "/" && SplitParent(path).Ok?
    && Encode(SplitParent(path).value.1) == Ok(raw)
    && ParentCluster(g, d, SplitParent(path).value.0) == Ok(parent)
    && NoDots(Components(SplitParent(path).value.0))
    && DirOf(Before(g, d, dirs), g.root, Components(SplitParent(path).value.0)) == Some(parent)
  }

  lemma ParentIsAbsolute(path: string)
    requires Absolute(path) && SplitParent(path).Ok?
    ensures Absolute(SplitParent(path).value.0)
  {
    var p := TrimSlashes(path);
    assert p != "" ==> p[0] == path[0];
  }

  /** A walk that ends at a sub-directory entry leads to that directory. */
  lemma ResolvedDir(cat: Catalog, dirs: set<nat>, root: nat, parts: seq<string>)
    requires parts != [] && NoDots(parts)
    requires Resolve(cat, root, parts).Some? && Resolve(cat, root, parts).value.IsDir()
    requires forall dir, name :: IsSubdir(cat, dir, name) ==> cat[dir][name].firstCluster in dirs
    ensures DirOf(cat, root, parts) == Some(Resolve(cat, root, parts).value.firstCluster)
    ensures Resolve(cat, root, parts).value.firstCluster in dirs
  {
    var init, last := parts[..|parts| - 1], parts[|parts| - 1];
    assert parts == init + [last];
    DirOfSnoc(cat, root, init, last);
    assert !IsDotName(Upper(last));
    assert IsSubdir(cat, DirOf(cat, root, init).value, Upper(last));
  }

  /** The parent of a write, in the catalog's terms. */
  ghost function ParentIn(cat: Catalog, root: nat, parent: string): Result<nat> {
    var parts := Components(parent);
    if parent == "/" then Ok(root)
    else if parts == [] || Resolve(cat, root, parts).None? then Err(PathNotFound)
    else
      var e := Resolve(cat, root, parts).value;
      if e.IsDir() then Ok(e.firstCluster) else Err(NotADirectory)
  }

  lemma ParentInDir(cat: Catalog, dirs: set<nat>, root: nat, parent: string)
    requires ParentIn(cat, root, parent).Ok? && NoDots(Components(parent)) && root in dirs
    requires forall dir, name :: IsSubdir(cat, dir, name) ==> cat[dir][name].firstCluster in dirs
    ensures DirOf(cat, root, Components(parent)) == Some(ParentIn(cat, root, parent).value)
    ensures ParentIn(cat, root, parent).value in dirs
  {
    if parent == "/" {
      SlashHasNoComponents();
    } else {
      ResolvedDir(cat, dirs, root, Components(parent));
    }
  }

  lemma ListDirPathIs(g: Geo, d: seq<byte>, cat: Catalog, path: string)
    requires OpenPath(g, d, path) == Ok(if Components(path) == [] then None else Resolve(cat, g.root, Components(path)))
    ensures ListDirPath(g, d, path)
            == match ParentIn(cat, g.root, path) case Err(e) => Err(e) case Ok(c) => ListDir(g, d, c)
  {
    hide OpenPath, ListDir, Components, Resolve;
  }

  /** `list_dir_path` lists the live slots of the directory that the path leads to in the catalog, and answers
      PathNotFound or NotADirectory where it leads nowhere or to a file. */
  lemma ListDirPathView(g: Geo, d: seq<byte>, dirs: set<nat>, path: string)
    requires Navigable(g, d, dirs) && Absolute(path) && NoDots(Components(path))
    requires Passable(CatalogOf(View(g, d), dirs), g.root, Components(path))
    ensures var dir := ParentIn(CatalogOf(View(g, d), dirs), g.root, path);
            && (dir.Err? ==> ListDirPath(g, d, path) == Err(dir.error))
            && (dir.Ok? ==>
                  && dir.value in dirs && ChainAt(View(g, d).fat, dir.value).Some?
                  && ListDirPath(g, d, path) == Ok(Listing(DirSlots(View(g, d), dir.value))))
  {
    var cat := CatalogOf(View(g, d), dirs);
    OpenPathView(g, d, dirs, path);
    ListDirPathIs(g, d, cat, path);
    hide View, ListDir, ListDirPath, OpenPath, DirSlots, Listing, ParentIn, Passable, NoDots, Components, ChainAt,
      Layout;
    if ParentIn(cat, g.root, path).Ok? {
      ParentInDir(cat, dirs, g.root, path);
      ListDirView(g, d, ParentIn(cat, g.root, path).value);
    }
  }

  lemma ParentClusterView(g: Geo, d: seq<byte>, dirs: set<nat>, parent: string)
    requires Navigable(g, d, dirs) && Absolute(parent) && NoDots(Components(parent))
    requires Passable(CatalogOf(View(g, d), dirs), g.root, Components(parent))
    ensures ParentCluster(g, d, parent) == ParentIn(CatalogOf(View(g, d), dirs), g.root, parent)
    ensures ParentCluster(g, d, parent).Ok? ==>
              && DirOf(CatalogOf(View(g, d), dirs), g.root,
                 Components(parent)) == Some(ParentCluster(g, d, parent).value)
              && ParentCluster(g, d, parent).value in dirs
  {
    var cat := CatalogOf(View(g, d), dirs);
    var parts := Components(parent);
    OpenPathView(g, d, dirs, parent);
    ParentClusterIs(g, d, parent, if parts == [] then None else Resolve(cat, g.root, parts));
    if ParentIn(cat, g.root, parent).Ok? {
      ParentInDir(cat, dirs, g.root, parent);
    }
  }

  lemma ParentClusterIs(g: Geo, d: seq<byte>, parent: string, found: Option<DirEntry>)
    requires OpenPath(g, d, parent) == Ok(found)
    ensures ParentCluster(g, d, parent)
            == if parent == "/" then Ok(g.root)
               else match found
                    case None => Err(PathNotFound)
                    case Some(e) => if e.IsDir() then Ok(e.firstCluster) else Err(NotADirectory)
  {
  }

  /** Either the write is refused before anything is read for writing, or it has a target. */
  lemma ReadyTargets(g: Geo, d: seq<byte>, dirs: set<nat>, path: string)
    requires Ready(g, d, dirs, path) && Absolute(path) && path != "/" && SplitParent(path).Ok?
    requires Encode(SplitParent(path).value.1).Ok? && ParentCluster(g, d, SplitParent(path).value.0).Ok?
    ensures Targets(g, d, dirs, path, ParentCluster(g, d, SplitParent(path).value.0).value,
            Encode(SplitParent(path).value.1).value)
  {
    var (parent, name) := SplitParent(path).value;
    ParentIsAbsolute(path);
    WellFormedIsNavigable(g, d, dirs);
    ParentClusterView(g, d, dirs, parent);
    EncodedIsClean(name);
    FirstRawByte(name);
  }

  lemma TargetedWrite(g: Geo, d: seq<byte>, dirs: set<nat>, path: string, parent: nat, raw: RawName, content: seq<byte>)
    requires Targets(g, d, dirs, path, parent, raw)
    ensures WriteFile(g, d, path, content) == WriteInDir(g, d, parent, raw, content)
  {
  }

  lemma UntargetedWrite(g: Geo, d: seq<byte>, path: string, content: seq<byte>)
    requires g.clusterSize > 0
    requires !(Absolute(path) && path != "/" && SplitParent(path).Ok?
               && Encode(SplitParent(path).value.1).Ok? && ParentCluster(g, d, SplitParent(path).value.0).Ok?)
    ensures WriteFile(g, d, path, content).result.Err? && WriteFile(g, d, path, content).disk == d
  {
  }

  // ---------- 1. every answer ----------

  /** The answer of `write_file_by_path`, case by case, in the order the code decides. */
  lemma WriteAnswers(g: Geo, d: seq<byte>, dirs: set<nat>, path: string, content: seq<byte>)
    requires Ready(g, d, dirs, path)
    ensures var r := WriteFile(g, d, path, content).result;
            if !Absolute(path) || Components(path) == [] then r == Err(Other)
            else
              && SplitParent(path).Ok?
              && var (parent, name) := SplitParent(path).value;
              if Encode(name).Err? then r == Err(InvalidName)
              else if ParentIn(Before(g, d, dirs), g.root, parent).Err? then
                r == Err(ParentIn(Before(g, d, dirs), g.root, parent).error)
              else
                var p := ParentIn(Before(g, d, dirs), g.root, parent).value;
                var raw := Encode(name).value;
                var key := OldName(g, d, p, raw);
                && p in dirs
                && r == if IsSubdir(Before(g, d, dirs), p, key) then Err(NotAFile)
                        else if Enough(g, d, dirs, p, key, content) && HasRoom(g, d, p, raw) then Ok(())
                        else Err(NoSpaceLeft)
  {
    if Absolute(path) {
      SplitParentFails(path);
      if path == "/" { SlashHasNoComponents(); }
      if SplitParent(path).Ok? && path != "/" {
        var (parent, name) := SplitParent(path).value;
        ParentIsAbsolute(path);
        WellFormedIsNavigable(g, d, dirs);
        ParentClusterView(g, d, dirs, parent);
        if Encode(name).Ok? && ParentCluster(g, d, parent).Ok? {
          ReadyTargets(g, d, dirs, path);
          TargetAnswers(g, d, dirs, path, ParentCluster(g, d, parent).value, Encode(name).value, content);
        }
      }
    }
  }

  lemma TargetAnswers(g: Geo, d: seq<byte>, dirs: set<nat>, path: string, parent: nat, raw: RawName, content: seq<byte>)
    requires Targets(g, d, dirs, path, parent, raw)
    ensures var key := OldName(g, d, parent, raw);
            WriteFile(g, d, path, content).result
            == if IsSubdir(Before(g, d, dirs), parent, key) then Err(NotAFile)
               else if Enough(g, d, dirs, parent, key, content) && HasRoom(g, d, parent, raw) then Ok(())
               else Err(NoSpaceLeft)
  {
    TargetedWrite(g, d, dirs, path, parent, raw, content);
    if IsSubdir(Before(g, d, dirs), parent, OldName(g, d, parent, raw)) {
      WriteToSubdir(g, d, dirs, parent, raw, content);
    } else {
      WriteSucceedsIff(g, d, dirs, parent, raw, content);
    }
  }

  lemma TargetSucceeds(g: Geo, d: seq<byte>, dirs: set<nat>, path: string, parent: nat, raw: RawName,
                       content: seq<byte>)
    requires Targets(g, d, dirs, path, parent, raw)
    ensures WriteFile(g, d, path, content).result.Ok? <==> Succeeds(g, d, dirs, parent, raw, content)
  {
    TargetAnswers(g, d, dirs, path, parent, raw, content);
  }

  /** The refusals of a call that leave the buffer alone: those before a target is known, and those that spend
      nothing. */
  ghost predicate RefusedUnspent(g: Geo, d: seq<byte>, dirs: set<nat>, path: string, content: seq<byte>)
    requires WellFormed(g, d, dirs)
  {
    || !Absolute(path) || Components(path) == [] || SplitParent(path).Err?
    || var (parent, name) := SplitParent(path).value;
       || Encode(name).Err? || ParentIn(Before(g, d, dirs), g.root, parent).Err?
       || var p := ParentIn(Before(g, d, dirs), g.root, parent).value;
          p in dirs && Unspent(g, d, dirs, p, Encode(name).value, content)
  }

  /** A call that does not answer Ok leaves the buffer byte for byte exactly in those cases. */
  lemma RefusalUntouchedIff(g: Geo, d: seq<byte>, dirs: set<nat>, path: string, content: seq<byte>)
    requires Ready(g, d, dirs, path)
    ensures WriteFile(g, d, path, content).result.Err? ==>
              (WriteFile(g, d, path, content).disk == d <==> RefusedUnspent(g, d, dirs, path, content))
  {
    if Absolute(path) {
      SplitParentFails(path);
      if path == "/" { SlashHasNoComponents(); }
      if SplitParent(path).Ok? && path != "/" {
        var (parent, name) := SplitParent(path).value;
        ParentIsAbsolute(path);
        WellFormedIsNavigable(g, d, dirs);
        ParentClusterView(g, d, dirs, parent);
        if Encode(name).Ok? && ParentCluster(g, d, parent).Ok? {
          ReadyTargets(g, d, dirs, path);
          TargetUntouched(g, d, dirs, path, ParentCluster(g, d, parent).value, Encode(name).value, content);
        } else {
          UntargetedWrite(g, d, path, content);
        }
      } else {
        UntargetedWrite(g, d, path, content);
      }
    }
  }

  lemma TargetUntouched(g: Geo, d: seq<byte>, dirs: set<nat>, path: string, parent: nat, raw: RawName,
                        content: seq<byte>)
    requires Targets(g, d, dirs, path, parent, raw)
    ensures WriteFile(g, d, path, content).result.Err? ==>
              (WriteFile(g, d, path, content).disk == d <==> Unspent(g, d, dirs, parent, raw, content))
  {
    TargetedWrite(g, d, dirs, path, parent, raw, content);
    if WriteInDir(g, d, parent, raw, content).result.Err? {
      RefusalTouchesNothing(g, d, dirs, parent, raw, content);
    }
  }

  // ---------- walks after a write ----------

  lemma {:induction false} DirOfPassable(cat: Catalog, dir: nat, parts: seq<string>, last: string)
    requires DirOf(cat, dir, parts).Some?
    ensures Passable(cat, dir, parts + [last])
    ensures Resolve(cat, dir, parts + [last])
            == if DirOf(cat, dir, parts).value in cat then Get(cat[DirOf(cat, dir, parts).value], Upper(last)) else None
    decreases |parts|
  {
    assert (parts + [last])[..|parts|] == parts;
    if parts != [] {
      assert (parts + [last])[1..] == parts[1..] + [last];
      DirOfPassable(cat, cat[dir][Upper(parts[0])].firstCluster, parts[1..], last);
    }
  }

  /** Every sub-directory entry of `cat'` is one of `cat`. */
  ghost predicate NoNewSubdirs(cat: Catalog, cat': Catalog) {
    && cat'.Keys == cat.Keys
    && forall dir, name :: IsSubdir(cat', dir, name) ==>
         IsSubdir(cat, dir, name) && cat'[dir][name] == cat[dir][name]
  }

  /** No write makes a sub-directory entry, or leads one elsewhere. */
  lemma WriteMakesNoSubdir(g: Geo, d: seq<byte>, dirs: set<nat>, parent: nat, raw: RawName, content: seq<byte>)
    requires Writable(g, d, dirs, parent, raw)
    ensures var d' := WriteInDir(g, d, parent, raw, content).disk;
            Layout(g, |d'|) && NoNewSubdirs(Before(g, d, dirs), Before(g, d', dirs))
  {
    if !Succeeds(g, d, dirs, parent, raw, content) {
      RefusedCatalog(g, d, dirs, parent, raw, content);
    } else if raw[0] == END_MARK {
      CutIsFewer(g, d, dirs, parent, raw, content);
    } else {
      SuccessCatalog(g, d, dirs, parent, raw, content);
      EnterMakesNoSubdir(Before(g, d, dirs), parent, Decode(raw),
                         NewEntry(raw, UsedFor(g, d, dirs, parent, raw, content), content));
    }
  }

  lemma EnterMakesNoSubdir(cat: Catalog, dir: nat, name: string, e: DirEntry)
    requires dir in cat && e.IsFile()
    ensures NoNewSubdirs(cat, Enter(cat, dir, name, e))
  {
    assert Enter(cat, dir, name, e)[dir][name] == e;
  }

  /** After any write every directory can still be listed, and every sub-directory entry that is left leads to one. */
  lemma WriteKeepsNavigable(g: Geo, d: seq<byte>, dirs: set<nat>, parent: nat, raw: RawName, content: seq<byte>)
    requires Writable(g, d, dirs, parent, raw)
    ensures Navigable(g, WriteInDir(g, d, parent, raw, content).disk, dirs)
    ensures NoNewSubdirs(Before(g, d, dirs), Before(g, WriteInDir(g, d, parent, raw, content).disk, dirs))
  {
    var d' := WriteInDir(g, d, parent, raw, content).disk;
    WriteFrame(g, d, dirs, parent, raw, content);
    WriteMakesNoSubdir(g, d, dirs, parent, raw, content);
    WellFormedIsNavigable(g, d, dirs);
    var cat, cat' := Before(g, d, dirs), Before(g, d', dirs);
    forall c | c in dirs ensures ChainAt(View(g, d').fat, c).Some? {
      assert c in cat;
    }
    forall dir, name | IsSubdir(cat', dir, name) ensures cat'[dir][name].firstCluster in dirs {
      assert IsSubdir(cat, dir, name);
    }
  }

  /** The parent of a write is reached as before, whatever the write answers. */
  lemma ParentKept(g: Geo, d: seq<byte>, dirs: set<nat>, path: string, parent: nat, raw: RawName, content: seq<byte>)
    requires Targets(g, d, dirs, path, parent, raw)
    ensures var d' := WriteInDir(g, d, parent, raw, content).disk;
            && Layout(g, |d'|)
            && DirOf(Before(g, d', dirs), g.root, Components(SplitParent(path).value.0)) == Some(parent)
  {
    WriteFrame(g, d, dirs, parent, raw, content);
    TreeIsRooted(View(g, d).fat, g.clusterSize, g.root, Before(g, d, dirs));
    DirOfAt(Before(g, d, dirs), Before(g, WriteInDir(g, d, parent, raw, content).disk, dirs), g.root,
            Components(SplitParent(path).value.0), parent, Touched(g, d, dirs, parent, raw, content));
  }
}

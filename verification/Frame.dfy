/** What a write leaves alone, and exactly when the volume stays well-formed. */
module Frame {
  import opened Wrappers
  import opened Bytes
  import opened Names
  import opened DirEntries
  import opened Chains
  import opened Geometry
  import opened Tables
  import opened Directories
  import opened DirUpdates
  import opened Engine
  import opened Tree
  import opened Volume
  import opened Writes
  import opened Outcomes

  /** Outside `names` of `dir`: the same entries, the same chains, the same bytes. */
  ghost predicate Preserved(v: Vol, v': Vol, cat: Catalog, cat': Catalog, dir: nat, names: set<string>) {
    && |v.data| == |v.fat| == |v'.fat| == |v'.data|
    && OthersKept(v.fat, v'.fat, cat, cat', dir, names)
    && (forall c :: IsClaim(cat, c) && c.FileClaim? && !IsNamed(c, dir, names) ==>
          SameBytes(v, v', ClaimChain(v.fat, cat, c)))
    && (forall c :: c in cat ==> ChainAt(v'.fat, c).Some?)
  }

  ghost predicate SameBytes(v: Vol, v': Vol, ch: seq<nat>) {
    forall x :: x in ch && x < |v.data| && x < |v'.data| ==> v'.data[x] == v.data[x]
  }

  lemma PreservedRefl(v: Vol, cs: nat, root: nat, cat: Catalog, dir: nat, names: set<string>)
    requires |v.data| == |v.fat| && TreeOk(v.fat, cs, root, cat)
    ensures Preserved(v, v, cat, cat, dir, names)
  {
  }

  /** The names of the parent that a write can change: the written one; under a name that starts with NUL, those that
      only the slots from its place on show. */
  ghost function Touched(g: Geo, d: seq<byte>, dirs: set<nat>, parent: nat, raw: RawName,
                         content: seq<byte>): set<string>
    requires Layout(g, |d|)
  {
    if raw[0] != END_MARK then {Decode(raw)}
    else if Succeeds(g, d, dirs, parent, raw, content) then HiddenNames(DirGrid(View(g, d), parent), raw)
    else {}
  }

  lemma OldNameTouched(g: Geo, d: seq<byte>, dirs: set<nat>, parent: nat, raw: RawName, content: seq<byte>)
    requires Writable(g, d, dirs, parent, raw)
    ensures var name := OldName(g, d, parent, raw);
            name in Before(g, d, dirs)[parent] ==> name in Touched(g, d, dirs, parent, raw, content)
  {
    OldNameReplaces(g, d, dirs, parent, raw);
    if raw[0] == END_MARK { NulReplacesNothing(g, d, dirs, parent, raw); }
  }

  // ---------- too few clusters ----------

  lemma RelinkedByNothing(fat: Fat, freed: seq<nat>)
    requires AllInRange(fat, freed)
    ensures Relinked(fat, Zero(fat, freed), freed, [])
  {
  }

  lemma SameCatalog(v: Vol, v': Vol, dirs: set<nat>)
    requires |v.data| == |v.fat| && |v'.data| == |v'.fat|
    requires forall c :: c in dirs ==> DirGrid(v', c) == DirGrid(v, c)
    ensures CatalogOf(v', dirs) == CatalogOf(v, dirs)
  {
  }

  /** Giving the old chain back and nothing more. */
  lemma ReleaseKeepsOthers(g: Geo, d: seq<byte>, dirs: set<nat>, parent: nat, name: string, names: set<string>)
    requires WellFormed(g, d, dirs) && parent in dirs && !IsDotName(name)
    requires !IsSubdir(Before(g, d, dirs), parent, name)
    requires name in Before(g, d, dirs)[parent] ==> name in names
    ensures var v, v' := View(g, d), View(g, ReleasedDisk(g, d, dirs, parent, name));
            CatalogOf(v', dirs) == CatalogOf(v, dirs)
              && Preserved(v, v', CatalogOf(v, dirs), CatalogOf(v', dirs), parent, names)
  {
    var v, v' := View(g, d), View(g, ReleasedDisk(g, d, dirs, parent, name));
    ReleasedState(g, d, dirs, parent, name);
    RelinkedByNothing(v.fat, Freed(g, d, dirs, parent, name));
    forall c | c in dirs ensures DirGrid(v', c) == DirGrid(v, c) && ChainAt(v'.fat, c).Some? {
      GridKept(v, v', g.clusterSize, g.root, dirs, parent, name, [], c);
    }
    SameCatalog(v, v', dirs);
    StepKeepsOthers(v.fat, v'.fat, g.clusterSize, g.root, CatalogOf(v, dirs), parent, name, [], names);
  }

  /** A volume whose file lost its chain is no longer well-formed. */
  lemma ReleaseBreaks(g: Geo, d: seq<byte>, dirs: set<nat>, parent: nat, name: string)
    requires WellFormed(g, d, dirs) && parent in dirs && !IsDotName(name)
    requires !IsSubdir(Before(g, d, dirs), parent, name)
    requires Freed(g, d, dirs, parent, name) != []
    ensures !WellFormed(g, ReleasedDisk(g, d, dirs, parent, name), dirs)
  {
    var cat := Before(g, d, dirs);
    var e: DirEntry := cat[parent][name];
    ReleasedState(g, d, dirs, parent, name);
    ReleaseKeepsOthers(g, d, dirs, parent, name, {name});
    ZeroedBreaks(View(g, d).fat, e.firstCluster);
    BrokenEntry(View(g, ReleasedDisk(g, d, dirs, parent, name)).fat, g.clusterSize, g.root, cat, parent, name);
  }

  lemma ZeroedBreaks(fat: Fat, first: nat)
    requires ChainFrom(fat, first) != []
    ensures FIRST_CLUSTER <= first && AllInRange(fat, ChainFrom(fat, first))
    ensures ChainAt(Zero(fat, ChainFrom(fat, first)), first).None?
  {
    ChainFromSpec(fat, first);
    var ch := ChainFrom(fat, first);
    assert first in ch && InRange(fat, ch[0]);
    assert Zero(fat, ch)[first] == 0;
  }

  lemma BrokenEntry(fat: Fat, cs: nat, root: nat, cat: Catalog, dir: nat, name: string)
    requires HasEntry(cat, dir, name) && cat[dir][name].IsFile()
    requires cat[dir][name].firstCluster >= FIRST_CLUSTER && ChainAt(fat, cat[dir][name].firstCluster).None?
    ensures !TreeOk(fat, cs, root, cat)
  {
    assert !FileOk(fat, cs, cat[dir][name]);
  }

  // ---------- a full directory ----------

  lemma LeakState(g: Geo, d: seq<byte>, dirs: set<nat>, parent: nat, name: string, content: seq<byte>,
                  names: set<string>)
    requires WellFormed(g, d, dirs) && parent in dirs && !IsDotName(name)
    requires name !in Before(g, d, dirs)[parent] && Enough(g, d, dirs, parent, name, content)
    ensures var v, v2 := View(g, d), StoredVol(g, d, dirs, parent, name, content);
            && View(g, StoredDisk(g, d, dirs, parent, name, content)) == v2
            && CatalogOf(v2, dirs) == CatalogOf(v, dirs)
            && Preserved(v, v2, CatalogOf(v, dirs), CatalogOf(v2, dirs), parent, names)
            && WellFormed(g, StoredDisk(g, d, dirs, parent, name, content), dirs)
  {
    var v, v2 := View(g, d), StoredVol(g, d, dirs, parent, name, content);
    var used := UsedBy(g, d, dirs, parent, name, content);
    StoredState(g, d, dirs, parent, name, content);
    StoredVolFacts(g, d, dirs, parent, name, content);
    forall c | c in dirs ensures DirGrid(v2, c) == DirGrid(v, c) && ChainAt(v2.fat, c).Some? {
      StoredGrids(g, d, dirs, parent, name, content, c);
    }
    SameCatalog(v, v2, dirs);
    LeakKeepsTree(v.fat, v2.fat, g.clusterSize, g.root, CatalogOf(v, dirs), parent, name, used);
    StoreKeepsOthers(g, d, dirs, parent, name, content, names);
  }

  lemma StoreKeepsOthers(g: Geo, d: seq<byte>, dirs: set<nat>, parent: nat, name: string, content: seq<byte>,
                         names: set<string>)
    requires WellFormed(g, d, dirs) && parent in dirs && Enough(g, d, dirs, parent, name, content)
    requires name in Before(g, d, dirs)[parent] ==> name in names
    ensures var v, v2 := View(g, d), StoredVol(g, d, dirs, parent, name, content);
            var cat := CatalogOf(v, dirs);
            && OthersKept(v.fat, v2.fat, cat, cat, parent, names)
            && forall c :: IsClaim(cat, c) && !IsNamed(c, parent, names) ==> SameBytes(v, v2, ClaimChain(v.fat, cat, c))
  {
    var v, v2 := View(g, d), StoredVol(g, d, dirs, parent, name, content);
    var cat := CatalogOf(v, dirs);
    var used := UsedBy(g, d, dirs, parent, name, content);
    StoredVolFacts(g, d, dirs, parent, name, content);
    StepKeepsOthers(v.fat, v2.fat, g.clusterSize, g.root, cat, parent, name, used, names);
    forall c | IsClaim(cat, c) && !IsNamed(c, parent, names) ensures SameBytes(v, v2, ClaimChain(v.fat, cat, c)) {
      OtherClaimKept(v.fat, v2.fat, g.clusterSize, g.root, cat, parent, name, used, c);
    }
  }

  // ---------- every outcome ----------

  /** After a successful write every entry that it does not touch is there, with its chain. */
  lemma SuccessKeepsEntries(g: Geo, d: seq<byte>, dirs: set<nat>, parent: nat, raw: RawName, content: seq<byte>)
    requires Succeeds(g, d, dirs, parent, raw, content)
    ensures var v, v3 := View(g, d), View(g, WriteInDir(g, d, parent, raw, content).disk);
            OthersKept(v.fat, v3.fat, CatalogOf(v, dirs), CatalogOf(v3, dirs), parent,
                       Touched(g, d, dirs, parent, raw, content))
  {
    var name := OldName(g, d, parent, raw);
    var v, v3 := View(g, d), View(g, WriteInDir(g, d, parent, raw, content).disk);
    var cat := CatalogOf(v, dirs);
    var used := UsedFor(g, d, dirs, parent, raw, content);
    SuccessEffect(g, d, dirs, parent, raw, content);
    StoredVolFacts(g, d, dirs, parent, name, content);
    if raw[0] == END_MARK {
      NulReplacesNothing(g, d, dirs, parent, raw);
      CutIsFewer(g, d, dirs, parent, raw, content);
      StepKeepsOthers(v.fat, v3.fat, g.clusterSize, g.root, cat, parent, name, used, {});
      FewerKeepsOthers(v.fat, v3.fat, cat, CatalogOf(v3, dirs), parent, Touched(g, d, dirs, parent, raw, content));
    } else {
      SuccessCatalog(g, d, dirs, parent, raw, content);
      OldNameReplaces(g, d, dirs, parent, raw);
      EnterKeepsOthers(v.fat, v3.fat, g.clusterSize, g.root, cat, parent, name, Decode(raw), used,
                       NewEntry(raw, used, content));
    }
  }

  /** Nor do its bytes change. */
  lemma SuccessKeepsBytes(g: Geo, d: seq<byte>, dirs: set<nat>, parent: nat, raw: RawName, content: seq<byte>, c: Claim)
    requires Succeeds(g, d, dirs, parent, raw, content) && c.FileClaim? && IsClaim(Before(g, d, dirs), c)
    requires !IsNamed(c, parent, Touched(g, d, dirs, parent, raw, content))
    ensures |WriteInDir(g, d, parent, raw, content).disk| == |d|
    ensures SameBytes(View(g, d), View(g, WriteInDir(g, d, parent, raw, content).disk),
                      ClaimChain(View(g, d).fat, Before(g, d, dirs), c))
  {
    var name := OldName(g, d, parent, raw);
    SuccessEffect(g, d, dirs, parent, raw, content);
    OldNameTouched(g, d, dirs, parent, raw, content);
    StoreKeepsOthers(g, d, dirs, parent, name, content, Touched(g, d, dirs, parent, raw, content));
    StoredGrids(g, d, dirs, parent, name, content, parent);
    FileMissesDir(g, d, dirs, c, parent);
    hide View, CatalogOf, Touched, OldName, WriteInDir, TreeOk, Orderly, OthersKept, Enough, HasRoom, UsedBy, IsClaim,
      ClaimChain;
    assert SameBytes(View(g, d), StoredFor(g, d, dirs, parent, raw, content),
                     ClaimChain(View(g, d).fat, Before(g, d, dirs), c));
  }

  lemma SuccessKeepsOthers(g: Geo, d: seq<byte>, dirs: set<nat>, parent: nat, raw: RawName, content: seq<byte>)
    requires Succeeds(g, d, dirs, parent, raw, content)
    ensures var v, v3 := View(g, d), View(g, WriteInDir(g, d, parent, raw, content).disk);
            Preserved(v, v3, CatalogOf(v, dirs), CatalogOf(v3, dirs), parent,
                      Touched(g, d, dirs, parent, raw, content))
  {
    var names := Touched(g, d, dirs, parent, raw, content);
    var v, v3 := View(g, d), View(g, WriteInDir(g, d, parent, raw, content).disk);
    var cat := CatalogOf(v, dirs);
    SuccessKeepsEntries(g, d, dirs, parent, raw, content);
    hide View, CatalogOf, Touched, WriteInDir, Orderly, OthersKept, Enough, HasRoom, SameBytes, ClaimChain;
    forall c | IsClaim(cat, c) && c.FileClaim? && !IsNamed(c, parent, names)
      ensures SameBytes(v, v3, ClaimChain(v.fat, cat, c))
    {
      SuccessKeepsBytes(g, d, dirs, parent, raw, content, c);
    }
    forall c | c in cat ensures ChainAt(v3.fat, c).Some? {
      SuccessGrids(g, d, dirs, parent, raw, content, c);
    }
  }

  lemma FileMissesDir(g: Geo, d: seq<byte>, dirs: set<nat>, c: Claim, dir: nat)
    requires WellFormed(g, d, dirs) && dir in dirs && c.FileClaim? && IsClaim(Before(g, d, dirs), c)
    ensures Disjoint(ClaimChain(View(g, d).fat, Before(g, d, dirs), c), ChainFrom(View(g, d).fat, dir))
  {
    var cat := Before(g, d, dirs);
    assert IsClaim(cat, DirClaim(dir));
    assert Disjoint(ClaimChain(View(g, d).fat, cat, c), ClaimChain(View(g, d).fat, cat, DirClaim(dir)));
  }

  /** Whatever one write answers, everything else on the volume is left alone. What a name that starts with NUL hides
      is part of what it touches. */
  lemma WriteFrame(g: Geo, d: seq<byte>, dirs: set<nat>, parent: nat, raw: RawName, content: seq<byte>)
    requires Writable(g, d, dirs, parent, raw)
    ensures var d' := WriteInDir(g, d, parent, raw, content).disk;
            && HeaderKept(g, d, d')
            && Preserved(View(g, d), View(g, d'), Before(g, d, dirs), Before(g, d', dirs), parent,
                         Touched(g, d, dirs, parent, raw, content))
  {
    var name, names := OldName(g, d, parent, raw), Touched(g, d, dirs, parent, raw, content);
    OldNameIsNotDot(g, d, parent, raw);
    OldNameTouched(g, d, dirs, parent, raw, content);
    if IsSubdir(Before(g, d, dirs), parent, name) {
      WriteToSubdir(g, d, dirs, parent, raw, content);
      PreservedRefl(View(g, d), g.clusterSize, g.root, Before(g, d, dirs), parent, names);
    } else {
      WriteInDirIs(g, d, dirs, parent, raw, content);
      if !Enough(g, d, dirs, parent, name, content) {
        ReleasedState(g, d, dirs, parent, name);
        ReleaseKeepsOthers(g, d, dirs, parent, name, names);
      } else if !HasRoom(g, d, parent, raw) {
        FullDirectoryIs(g, d, dirs, parent, raw, content);
        NoRoomNoName(g, d, dirs, parent, raw);
        StoredState(g, d, dirs, parent, name, content);
        LeakState(g, d, dirs, parent, name, content, names);
      } else {
        SuccessEffect(g, d, dirs, parent, raw, content);
        SuccessKeepsOthers(g, d, dirs, parent, raw, content);
      }
    }
  }

  /** What is left when no slot is found: the volume as the store left it. */
  lemma FullDirectoryIs(g: Geo, d: seq<byte>, dirs: set<nat>, parent: nat, raw: RawName, content: seq<byte>)
    requires Writable(g, d, dirs, parent, raw)
    requires !IsSubdir(Before(g, d, dirs), parent, OldName(g, d, parent, raw))
    requires Enough(g, d, dirs, parent, OldName(g, d, parent, raw), content) && !HasRoom(g, d, parent, raw)
    ensures WriteInDir(g, d, parent, raw, content)
            == Outcome(Err(NoSpaceLeft), StoredDisk(g, d, dirs, parent, OldName(g, d, parent, raw), content))
  {
    var name := OldName(g, d, parent, raw);
    WriteInDirIs(g, d, dirs, parent, raw, content);
    var used := UsedBy(g, d, dirs, parent, name, content);
    EnterAfterStore(g, d, dirs, parent, raw, content, NewSlot(raw, used, content));
    UpdateNeedsRoom(g, d, parent, raw, NewSlot(raw, used, content));
  }

  /** `used` is a chain of the table that belongs to no directory and to no file. */
  ghost predicate Leaked(v: Vol, cat: Catalog, used: seq<nat>) {
    && IsChain(v.fat, used)
    && forall c :: IsClaim(cat, c) ==> Disjoint(ClaimChain(v.fat, cat, c), used)
  }

  /** A create that finds no slot answers NoSpaceLeft and leaks: its new chain stays linked with no owner, the catalog
      is the old one, and as many clusters are lost as the content needs. */
  lemma FullDirectory(g: Geo, d: seq<byte>, dirs: set<nat>, parent: nat, raw: RawName, content: seq<byte>)
    requires Writable(g, d, dirs, parent, raw)
    requires Enough(g, d, dirs, parent, Decode(raw), content) && !HasRoom(g, d, parent, raw)
    ensures var o := WriteInDir(g, d, parent, raw, content);
            var used := UsedBy(g, d, dirs, parent, Decode(raw), content);
            && o.result == Err(NoSpaceLeft)
            && CatalogOf(View(g, o.disk), dirs) == Before(g, d, dirs)
            && |used| == Needed(g, content)
            && (content != [] ==> Leaked(View(g, o.disk), Before(g, d, dirs), used))
            && FreeCount(View(g, o.disk).fat) + Needed(g, content) == FreeCount(View(g, d).fat)
  {
    var name := Decode(raw);
    CleanIsNotDot(raw);
    NoRoomNoName(g, d, dirs, parent, raw);
    FullDirectoryIs(g, d, dirs, parent, raw, content);
    LeakState(g, d, dirs, parent, name, content, {});
    LeakedCount(g, d, dirs, parent, name, content);
    if content != [] { LeakedChain(g, d, dirs, parent, name, content); }
    hide WellFormed, Leaked, CatalogOf, View, StoredDisk, StoredVol, UsedBy, WriteInDir, HasRoom, Enough, Preserved,
      Layout;
  }

  lemma LeakedCount(g: Geo, d: seq<byte>, dirs: set<nat>, parent: nat, name: string, content: seq<byte>)
    requires WellFormed(g, d, dirs) && parent in dirs && Enough(g, d, dirs, parent, name, content)
    requires name !in Before(g, d, dirs)[parent]
    ensures FreeCount(StoredVol(g, d, dirs, parent, name, content).fat) + Needed(g, content)
            == FreeCount(View(g, d).fat)
  {
    NothingFreed(g, d, dirs, parent, name);
    StoredVolFacts(g, d, dirs, parent, name, content);
    FreeCountLink(Zero(View(g, d).fat, []), UsedBy(g, d, dirs, parent, name, content));
  }

  lemma NothingFreed(g: Geo, d: seq<byte>, dirs: set<nat>, parent: nat, name: string)
    requires Layout(g, |d|) && parent in dirs && name !in Before(g, d, dirs)[parent]
    ensures Freed(g, d, dirs, parent, name) == [] && Zero(View(g, d).fat, []) == View(g, d).fat
  {
    assert !IsClaim(Before(g, d, dirs), FileClaim(parent, name));
  }

  lemma LeakedChain(g: Geo, d: seq<byte>, dirs: set<nat>, parent: nat, name: string, content: seq<byte>)
    requires WellFormed(g, d, dirs) && parent in dirs && Enough(g, d, dirs, parent, name, content)
    requires name !in Before(g, d, dirs)[parent] && content != []
    ensures Leaked(StoredVol(g, d, dirs, parent, name, content), Before(g, d, dirs),
                   UsedBy(g, d, dirs, parent, name, content))
  {
    var v, v2 := View(g, d), StoredVol(g, d, dirs, parent, name, content);
    var cat := Before(g, d, dirs);
    var used := UsedBy(g, d, dirs, parent, name, content);
    NeededIsZero(g, content);
    StoredVolFacts(g, d, dirs, parent, name, content);
    LinkMakesChain(Zero(v.fat, Freed(g, d, dirs, parent, name)), used);
    forall c | IsClaim(cat, c) ensures Disjoint(ClaimChain(v2.fat, cat, c), used) {
      OtherClaimKept(v.fat, v2.fat, g.clusterSize, g.root, cat, parent, name, used, c);
    }
  }

  /** A chain longer than any reader walks does not count as terminated. */
  lemma LongChainBreaks(fat: Fat, ch: seq<nat>)
    requires IsChain(fat, ch) && |ch| > MAX_CHAIN
    ensures ChainAt(fat, ch[0]).None?
  {
    if ChainAt(fat, ch[0]).Some? {
      FollowIsChain(fat, ch[0], MAX_CHAIN);
      ShareTail(fat, ch, 0, ChainAt(fat, ch[0]).value, 0);
      assert false;
    }
  }

  /** A write of more than 4096 clusters goes through and leaves a chain that no reader finishes. */
  lemma TooLongBreaks(g: Geo, d: seq<byte>, dirs: set<nat>, parent: nat, raw: RawName, content: seq<byte>)
    requires Enters(g, d, dirs, parent, raw, content) && Needed(g, content) > MAX_CHAIN
    ensures !WellFormed(g, WriteInDir(g, d, parent, raw, content).disk, dirs)
  {
    var name := OldName(g, d, parent, raw);
    var used := UsedFor(g, d, dirs, parent, raw, content);
    var d3 := WriteInDir(g, d, parent, raw, content).disk;
    CleanIsNotDot(raw);
    SuccessEffect(g, d, dirs, parent, raw, content);
    SuccessCatalog(g, d, dirs, parent, raw, content);
    StoredVolFacts(g, d, dirs, parent, name, content);
    LinkMakesChain(Zero(View(g, d).fat, Freed(g, d, dirs, parent, name)), used);
    LongChainBreaks(View(g, d3).fat, used);
    assert InRange(View(g, d3).fat, used[0]);
    BrokenEntry(View(g, d3).fat, g.clusterSize, g.root, CatalogOf(View(g, d3), dirs), parent, Decode(raw));
  }

  /** A name that starts with NUL, written in front of a cluster that shows something, breaks the end-mark rule. */
  lemma CutBreaks(g: Geo, d: seq<byte>, dirs: set<nat>, parent: nat, raw: RawName, content: seq<byte>)
    requires Succeeds(g, d, dirs, parent, raw, content) && raw[0] == END_MARK && !EndsWell(g, d, parent, raw, content)
    ensures !WellFormed(g, WriteInDir(g, d, parent, raw, content).disk, dirs)
  {
    SuccessGrids(g, d, dirs, parent, raw, content, parent);
    NewGridFacts(g, d, dirs, parent, raw, content);
  }

  /** The write leaves a terminated chain, or none at all, behind every entry, and nothing behind an end mark. */
  ghost predicate Harmless(g: Geo, d: seq<byte>, dirs: set<nat>, parent: nat, raw: RawName, content: seq<byte>)
    requires WellFormed(g, d, dirs) && parent in dirs
  {
    if Enough(g, d, dirs, parent, OldName(g, d, parent, raw), content)
    then !HasRoom(g, d, parent, raw) || EndsWell(g, d, parent, raw, content)
    else Freed(g, d, dirs, parent, OldName(g, d, parent, raw)) == []
  }

  /** A write breaks the volume exactly when it gives back clusters and then finds too few; when it goes through with
      more clusters than a reader walks; or when, under a name that starts with NUL, it goes through in front of a
      cluster that shows something. */
  lemma WellFormedIff(g: Geo, d: seq<byte>, dirs: set<nat>, parent: nat, raw: RawName, content: seq<byte>)
    requires Writable(g, d, dirs, parent, raw)
    ensures WellFormed(g, WriteInDir(g, d, parent, raw, content).disk, dirs)
            <==> IsSubdir(Before(g, d, dirs), parent, OldName(g, d, parent, raw))
                 || Harmless(g, d, dirs, parent, raw, content)
  {
    var name := OldName(g, d, parent, raw);
    OldNameIsNotDot(g, d, parent, raw);
    if IsSubdir(Before(g, d, dirs), parent, name) {
      WriteToSubdir(g, d, dirs, parent, raw, content);
    } else {
      WriteInDirIs(g, d, dirs, parent, raw, content);
      if !Enough(g, d, dirs, parent, name, content) {
        ReleasedState(g, d, dirs, parent, name);
        if Freed(g, d, dirs, parent, name) != [] { ReleaseBreaks(g, d, dirs, parent, name); }
      } else if !HasRoom(g, d, parent, raw) {
        FullDirectoryIs(g, d, dirs, parent, raw, content);
        NoRoomNoName(g, d, dirs, parent, raw);
        LeakState(g, d, dirs, parent, name, content, {});
      } else if EndsWell(g, d, parent, raw, content) {
        SuccessKeepsWellFormed(g, d, dirs, parent, raw, content);
      } else if raw[0] == END_MARK {
        CutBreaks(g, d, dirs, parent, raw, content);
      } else {
        TooLongBreaks(g, d, dirs, parent, raw, content);
      }
    }
  }

  /** A refusal that frees nothing and links nothing: of a directory, of a create without enough clusters, or of an
      empty create in a full directory. */
  ghost predicate Unspent(g: Geo, d: seq<byte>, dirs: set<nat>, parent: nat, raw: RawName, content: seq<byte>)
    requires WellFormed(g, d, dirs) && parent in dirs
  {
    var name := OldName(g, d, parent, raw);
    || IsSubdir(Before(g, d, dirs), parent, name)
    || (!Enough(g, d, dirs, parent, name, content) && Freed(g, d, dirs, parent, name) == [])
    || (Enough(g, d, dirs, parent, name, content) && content == [])
  }

  /** A refused write leaves the buffer byte for byte exactly when it spent nothing. */
  lemma RefusalTouchesNothing(g: Geo, d: seq<byte>, dirs: set<nat>, parent: nat, raw: RawName, content: seq<byte>)
    requires Writable(g, d, dirs, parent, raw) && WriteInDir(g, d, parent, raw, content).result.Err?
    ensures WriteInDir(g, d, parent, raw, content).disk == d <==> Unspent(g, d, dirs, parent, raw, content)
  {
    var name := OldName(g, d, parent, raw);
    OldNameIsNotDot(g, d, parent, raw);
    if IsSubdir(Before(g, d, dirs), parent, name) {
      WriteToSubdir(g, d, dirs, parent, raw, content);
    } else {
      WriteSucceedsIff(g, d, dirs, parent, raw, content);
      if Enough(g, d, dirs, parent, name, content) {
        NoRoomNoName(g, d, dirs, parent, raw);
        FullTouches(g, d, dirs, parent, raw, content);
      } else {
        WriteInDirIs(g, d, dirs, parent, raw, content);
        ReleasedState(g, d, dirs, parent, name);
        if Freed(g, d, dirs, parent, name) != [] { ReleaseBreaks(g, d, dirs, parent, name); }
      }
    }
  }

  lemma FullTouches(g: Geo, d: seq<byte>, dirs: set<nat>, parent: nat, raw: RawName, content: seq<byte>)
    requires Writable(g, d, dirs, parent, raw)
    requires Enough(g, d, dirs, parent, Decode(raw), content) && !HasRoom(g, d, parent, raw)
    ensures WriteInDir(g, d, parent, raw, content).disk == d <==> content == []
  {
    CleanIsNotDot(raw);
    NoRoomNoName(g, d, dirs, parent, raw);
    if content == [] {
      FullDirectoryIs(g, d, dirs, parent, raw, content);
      NothingFreed(g, d, dirs, parent, Decode(raw));
      ReleasedState(g, d, dirs, parent, Decode(raw));
    } else {
      FullDirectory(g, d, dirs, parent, raw, content);
      NeededIsZero(g, content);
    }
  }

  /** Free clusters after a successful write: before, plus the old chain, minus what the content needs. */
  lemma Conservation(g: Geo, d: seq<byte>, dirs: set<nat>, parent: nat, raw: RawName, content: seq<byte>)
    requires Succeeds(g, d, dirs, parent, raw, content)
    ensures FreeCount(View(g, WriteInDir(g, d, parent, raw, content).disk).fat) + Needed(g, content)
            == FreeCount(View(g, d).fat) + |Freed(g, d, dirs, parent, OldName(g, d, parent, raw))|
  {
    var name := OldName(g, d, parent, raw);
    var used := UsedFor(g, d, dirs, parent, raw, content);
    SuccessEffect(g, d, dirs, parent, raw, content);
    FreedFacts(g, d, dirs, parent, name);
    StoredVolFacts(g, d, dirs, parent, name, content);
    FreeCountLink(Zero(View(g, d).fat, Freed(g, d, dirs, parent, name)), used);
  }

  lemma EnteredChain(fat: Fat, cat: Catalog, dir: nat, name: string, e: DirEntry)
    requires dir in cat && e.IsFile() && !IsDotName(name)
    ensures !IsSubdir(Enter(cat, dir, name, e), dir, name)
    ensures OldChain(fat, Enter(cat, dir, name, e), dir, name) == ChainFrom(fat, e.firstCluster)
  {
    assert Enter(cat, dir, name, e)[dir][name] == e;
    assert IsClaim(Enter(cat, dir, name, e), FileClaim(dir, name));
  }

  /** What the next write of that name will give back is exactly what this one used. */
  lemma NextFreed(g: Geo, d: seq<byte>, dirs: set<nat>, parent: nat, raw: RawName, content: seq<byte>)
    requires Enters(g, d, dirs, parent, raw, content) && Needed(g, content) <= MAX_CHAIN
    ensures var d' := WriteInDir(g, d, parent, raw, content).disk;
            && Layout(g, |d'|)
            && OldName(g, d', parent, raw) == Decode(raw)
            && !IsSubdir(Before(g, d', dirs), parent, Decode(raw))
            && Freed(g, d', dirs, parent, Decode(raw)) == UsedFor(g, d, dirs, parent, raw, content)
            && |Freed(g, d', dirs, parent, Decode(raw))| == Needed(g, content)
  {
    var used := UsedFor(g, d, dirs, parent, raw, content);
    var e := NewEntry(raw, used, content);
    CleanIsNotDot(raw);
    NextOldName(g, d, dirs, parent, raw, content);
    SuccessCatalog(g, d, dirs, parent, raw, content);
    NewChainOf(g, d, dirs, parent, raw, content);
    EnteredChain(View(g, WriteInDir(g, d, parent, raw, content).disk).fat, Before(g, d, dirs), parent, Decode(raw), e);
  }

  /** The next write of that name finds this one's slot, whatever label was there. */
  lemma NextOldName(g: Geo, d: seq<byte>, dirs: set<nat>, parent: nat, raw: RawName, content: seq<byte>)
    requires Enters(g, d, dirs, parent, raw, content)
    ensures |WriteInDir(g, d, parent, raw, content).disk| == |d|
    ensures OldName(g, WriteInDir(g, d, parent, raw, content).disk, parent, raw) == Decode(raw)
  {
    var used := UsedFor(g, d, dirs, parent, raw, content);
    WriteInDirIs(g, d, dirs, parent, raw, content);
    SuccessEffect(g, d, dirs, parent, raw, content);
    NewGridFacts(g, d, dirs, parent, raw, content);
    NewSlotCarries(raw, used, content);
    NextFind(DirGrid(View(g, d), parent), raw, NewSlot(raw, used, content), NewEntry(raw, used, content));
  }

  lemma NewChainOf(g: Geo, d: seq<byte>, dirs: set<nat>, parent: nat, raw: RawName, content: seq<byte>)
    requires Succeeds(g, d, dirs, parent, raw, content) && Needed(g, content) <= MAX_CHAIN
    ensures var used := UsedFor(g, d, dirs, parent, raw, content);
            && |WriteInDir(g, d, parent, raw, content).disk| == |d|
            && ChainFrom(View(g, WriteInDir(g, d, parent, raw, content).disk).fat,
                         NewEntry(raw, used, content).firstCluster) == used
  {
    var name := OldName(g, d, parent, raw);
    var used := UsedFor(g, d, dirs, parent, raw, content);
    SuccessEffect(g, d, dirs, parent, raw, content);
    NewEntryIsFresh(g, d, dirs, parent, raw, content);
    StoredVolFacts(g, d, dirs, parent, name, content);
    FreshChain(View(g, d).fat, StoredFor(g, d, dirs, parent, raw, content).fat, Freed(g, d, dirs, parent, name), used,
               NewEntry(raw, used, content), g.clusterSize);
  }

  // ---------- refused writes ----------

  lemma ReleasedGrids(g: Geo, d: seq<byte>, dirs: set<nat>, parent: nat, name: string, c: nat)
    requires WellFormed(g, d, dirs) && parent in dirs && !IsDotName(name) && c in dirs
    requires !IsSubdir(Before(g, d, dirs), parent, name)
    ensures DirGrid(View(g, ReleasedDisk(g, d, dirs, parent, name)), c) == DirGrid(View(g, d), c)
    ensures ChainAt(View(g, ReleasedDisk(g, d, dirs, parent, name)).fat, c).Some?
  {
    var v, v' := View(g, d), View(g, ReleasedDisk(g, d, dirs, parent, name));
    ReleasedState(g, d, dirs, parent, name);
    RelinkedByNothing(v.fat, Freed(g, d, dirs, parent, name));
    GridKept(v, v', g.clusterSize, g.root, dirs, parent, name, [], c);
  }

  /** A write that does not go through changes no directory. */
  lemma RefusedGrids(g: Geo, d: seq<byte>, dirs: set<nat>, parent: nat, raw: RawName, content: seq<byte>, c: nat)
    requires Writable(g, d, dirs, parent, raw) && !Succeeds(g, d, dirs, parent, raw, content) && c in dirs
    ensures WriteInDir(g, d, parent, raw, content).result.Err?
    ensures DirGrid(View(g, WriteInDir(g, d, parent, raw, content).disk), c) == DirGrid(View(g, d), c)
  {
    var name := OldName(g, d, parent, raw);
    OldNameIsNotDot(g, d, parent, raw);
    if IsSubdir(Before(g, d, dirs), parent, name) {
      WriteToSubdir(g, d, dirs, parent, raw, content);
    } else {
      WriteInDirIs(g, d, dirs, parent, raw, content);
      if !Enough(g, d, dirs, parent, name, content) {
        ReleasedGrids(g, d, dirs, parent, name, c);
      } else {
        FullDirectoryIs(g, d, dirs, parent, raw, content);
        StoredState(g, d, dirs, parent, name, content);
        StoredGrids(g, d, dirs, parent, name, content, c);
      }
    }
  }

  lemma RefusedCatalog(g: Geo, d: seq<byte>, dirs: set<nat>, parent: nat, raw: RawName, content: seq<byte>)
    requires Writable(g, d, dirs, parent, raw) && !Succeeds(g, d, dirs, parent, raw, content)
    ensures WriteInDir(g, d, parent, raw, content).result.Err?
    ensures var v, v' := View(g, d), View(g, WriteInDir(g, d, parent, raw, content).disk);
            && CatalogOf(v', dirs) == CatalogOf(v, dirs)
            && forall c :: c in dirs ==> DirGrid(v', c) == DirGrid(v, c)
  {
    RefusedGrids(g, d, dirs, parent, raw, content, parent);
    var v, v' := View(g, d), View(g, WriteInDir(g, d, parent, raw, content).disk);
    forall c | c in dirs ensures DirGrid(v', c) == DirGrid(v, c) {
      RefusedGrids(g, d, dirs, parent, raw, content, c);
    }
    SameCatalog(v, v', dirs);
  }

  // ---------- names stay unique ----------

  /** In every directory, no two live slots show the same name. */
  ghost predicate UniqueNames(v: Vol, dirs: set<nat>) {
    |v.data| == |v.fat| && forall c :: c in dirs ==> NamesUnique(DirSlots(v, c))
  }

  /** A write that puts a file in front of an entry of the same name: it takes the slot of a volume label before it. */
  ghost predicate Shadows(g: Geo, d: seq<byte>, dirs: set<nat>, parent: nat, raw: RawName, content: seq<byte>) {
    && Succeeds(g, d, dirs, parent, raw, content)
    && LabelHit(DirGrid(View(g, d), parent), raw) && Decode(raw) in Before(g, d, dirs)[parent]
  }

  lemma SuccessKeepsUnique(g: Geo, d: seq<byte>, dirs: set<nat>, parent: nat, raw: RawName, content: seq<byte>)
    requires Succeeds(g, d, dirs, parent, raw, content) && UniqueNames(View(g, d), dirs)
    ensures UniqueNames(View(g, WriteInDir(g, d, parent, raw, content).disk), dirs)
            <==> !Shadows(g, d, dirs, parent, raw, content)
  {
    var used := UsedFor(g, d, dirs, parent, raw, content);
    var v' := View(g, WriteInDir(g, d, parent, raw, content).disk);
    forall c | c in dirs
      ensures NamesUnique(DirSlots(v', c)) <==> c != parent || !Shadows(g, d, dirs, parent, raw, content)
    {
      SuccessGrids(g, d, dirs, parent, raw, content, c);
      if c == parent {
        WriteInDirIs(g, d, dirs, parent, raw, content);
        NewGridFacts(g, d, dirs, parent, raw, content);
        NewSlotCarries(raw, used, content);
        UpdateKeepsUnique(DirGrid(View(g, d), parent), raw, NewSlot(raw, used, content), NewEntry(raw, used, content));
      }
    }
  }

  /** Whatever a write answers, it makes a duplicate name exactly when it overwrites a volume label in front of an entry
      of that name. */
  lemma WriteKeepsUnique(g: Geo, d: seq<byte>, dirs: set<nat>, parent: nat, raw: RawName, content: seq<byte>)
    requires Writable(g, d, dirs, parent, raw) && UniqueNames(View(g, d), dirs)
    ensures UniqueNames(View(g, WriteInDir(g, d, parent, raw, content).disk), dirs)
            <==> !Shadows(g, d, dirs, parent, raw, content)
  {
    if Succeeds(g, d, dirs, parent, raw, content) {
      SuccessKeepsUnique(g, d, dirs, parent, raw, content);
    } else {
      RefusedCatalog(g, d, dirs, parent, raw, content);
    }
  }
}

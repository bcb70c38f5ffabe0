/** Directories and files on one volume: who owns which chain, and what one write does to that. */
module Tree {
  import opened Wrappers
  import opened DirEntries
  import opened Chains
  import opened Directories

  /** Each directory, named by its first cluster, as a map from upper-cased names to entries. */
  type Catalog = map<nat, map<string, DirEntry>>

  /** A holder of clusters: a directory, or a named file. */
  datatype Claim = DirClaim(dir: nat) | FileClaim(dir: nat, name: string)

  ghost predicate HasEntry(cat: Catalog, dir: nat, name: string) {
    dir in cat && name in cat[dir] && !IsDotName(name)
  }

  ghost predicate IsClaim(cat: Catalog, c: Claim) {
    match c
    case DirClaim(dir) => dir in cat
    case FileClaim(dir, name) => HasEntry(cat, dir, name) && cat[dir][name].IsFile()
  }

  ghost function StartOf(cat: Catalog, c: Claim): nat
    requires IsClaim(cat, c)
  {
    match c
    case DirClaim(dir) => dir
    case FileClaim(dir, name) => cat[dir][name].firstCluster
  }

  function ChainFrom(fat: Fat, start: nat): seq<nat> {
    match ChainAt(fat, start) case None => [] case Some(ch) => ch
  }

  ghost function ClaimChain(fat: Fat, cat: Catalog, c: Claim): seq<nat>
    requires IsClaim(cat, c)
  {
    ChainFrom(fat, StartOf(cat, c))
  }

  /** A file either has a terminated chain that covers its size, or no chain and no bytes. */
  ghost predicate FileOk(fat: Fat, cs: nat, e: DirEntry) {
    && (e.firstCluster >= FIRST_CLUSTER ==> ChainAt(fat, e.firstCluster).Some?)
    && e.size <= |ChainFrom(fat, e.firstCluster)| * cs
  }

  ghost predicate EntriesOk(fat: Fat, cs: nat, root: nat, cat: Catalog) {
    forall dir, name :: HasEntry(cat, dir, name) ==>
      if cat[dir][name].IsDir() then cat[dir][name].firstCluster in cat && cat[dir][name].firstCluster != root
      else FileOk(fat, cs, cat[dir][name])
  }

  /** No two holders share a cluster. */
  ghost predicate ClaimsApart(fat: Fat, cat: Catalog) {
    forall a, b :: IsClaim(cat, a) && IsClaim(cat, b) && a != b
      ==> Disjoint(ClaimChain(fat, cat, a), ClaimChain(fat, cat, b))
  }

  ghost predicate IsSubdir(cat: Catalog, dir: nat, name: string) {
    HasEntry(cat, dir, name) && cat[dir][name].IsDir()
  }

  /** Every directory is reached through at most one entry. */
  ghost predicate SubdirsOnce(cat: Catalog) {
    forall d1, n1, d2, n2 :: IsSubdir(cat, d1, n1) && IsSubdir(cat, d2, n2) && (d1 != d2 || n1 != n2) ==>
      cat[d1][n1].firstCluster != cat[d2][n2].firstCluster
  }

  ghost predicate TreeOk(fat: Fat, cs: nat, root: nat, cat: Catalog) {
    && root in cat
    && (forall dir :: dir in cat ==> ChainAt(fat, dir).Some?)
    && EntriesOk(fat, cs, root, cat)
    && ClaimsApart(fat, cat)
    && SubdirsOnce(cat)
  }

  // ---------- one write on the table and the catalog ----------

  /** The catalog after `name` in `dir` became `e`. */
  ghost function Enter(cat: Catalog, dir: nat, name: string, e: DirEntry): Catalog
    requires dir in cat
  {
    cat[dir := cat[dir][name := e]]
  }

  /** The chain a write of that name gives back. */
  ghost function OldChain(fat: Fat, cat: Catalog, dir: nat, name: string): seq<nat>
    requires dir in cat
  {
    if IsClaim(cat, FileClaim(dir, name)) then ClaimChain(fat, cat, FileClaim(dir, name)) else []
  }

  /** A step that frees one chain and links clusters that were then free. */
  ghost predicate Relinked(fat: Fat, fat': Fat, freed: seq<nat>, used: seq<nat>) {
    && AllInRange(fat, freed)
    && AllFree(Zero(fat, freed), used) && Distinct(used)
    && fat' == Link(Zero(fat, freed), used)
  }

  lemma ChainFromSpec(fat: Fat, start: nat)
    ensures var ch := ChainFrom(fat, start);
            && (ch != [] ==> IsChain(fat, ch) && ch[0] == start && |ch| <= MAX_CHAIN && Distinct(ch))
            && (ch == [] <==> ChainAt(fat, start).None?)
            && AllInRange(fat, ch)
  {
    if ChainAt(fat, start).Some? {
      FollowIsChain(fat, start, MAX_CHAIN);
      ChainDistinct(fat, ChainFrom(fat, start));
    }
  }

  /** A chain that misses the freed one survives the step, and misses the newly used clusters. */
  lemma ChainSurvives(fat: Fat, fat': Fat, freed: seq<nat>, used: seq<nat>, start: nat)
    requires Relinked(fat, fat', freed, used)
    requires ChainAt(fat, start).Some? && Disjoint(ChainFrom(fat, start), freed)
    ensures ChainAt(fat', start) == ChainAt(fat, start)
    ensures Disjoint(ChainFrom(fat, start), used) && Disjoint(used, ChainFrom(fat, start))
  {
    var ch := ChainFrom(fat, start);
    ChainFromSpec(fat, start);
    var mid := Zero(fat, freed);
    ChainFrame(fat, mid, ch);
    ChainNotFree(mid, ch, used);
    ChainFrame(mid, fat', ch);
    ChainIsFollowed(fat', ch, MAX_CHAIN);
  }

  /** The newly linked clusters form a chain of their own. */
  lemma NewChain(fat: Fat, fat': Fat, freed: seq<nat>, used: seq<nat>)
    requires Relinked(fat, fat', freed, used) && used != [] && |used| <= MAX_CHAIN
    ensures ChainAt(fat', used[0]) == Some(used)
  {
    LinkMakesChain(Zero(fat, freed), used);
    ChainIsFollowed(fat', used, MAX_CHAIN);
  }

  /** The entry a write leaves behind: a file whose chain is exactly the newly used clusters. */
  ghost predicate FreshFile(e: DirEntry, used: seq<nat>, cs: nat) {
    && e.IsFile() && |used| <= MAX_CHAIN
    && e.firstCluster == (if used == [] then 0 else used[0])
    && e.size <= |used| * cs
  }

  lemma FreshChain(fat: Fat, fat': Fat, freed: seq<nat>, used: seq<nat>, e: DirEntry, cs: nat)
    requires Relinked(fat, fat', freed, used) && FreshFile(e, used, cs)
    ensures ChainFrom(fat', e.firstCluster) == used
    ensures FileOk(fat', cs, e)
  {
    if used != [] {
      NewChain(fat, fat', freed, used);
      assert InRange(fat, used[0]);
    }
  }

  /** `cat'` differs from `cat` at `names` of `dir` at most. */
  ghost predicate SameElsewhere(cat: Catalog, cat': Catalog, dir: nat, names: set<string>) {
    && cat'.Keys == cat.Keys
    && forall d: nat, n: string {:trigger Get(cat'[d], n)} {:trigger Get(cat[d], n)} ::
         d in cat && (d != dir || n !in names) ==> Get(cat'[d], n) == Get(cat[d], n)
  }

  /** Everything a write that touches `names` of `dir` leaves alone. */
  ghost predicate OthersKept(fat: Fat, fat': Fat, cat: Catalog, cat': Catalog, dir: nat, names: set<string>) {
    && SameElsewhere(cat, cat', dir, names)
    && forall c :: IsClaim(cat, c) && !IsNamed(c, dir, names) ==>
         IsClaim(cat', c) && ClaimChain(fat', cat', c) == ClaimChain(fat, cat, c)
  }

  /** A file of `dir` under one of `names`. */
  predicate IsNamed(c: Claim, dir: nat, names: set<string>) {
    c.FileClaim? && c.dir == dir && c.name in names
  }

  /** The freed chain belongs to the written name alone, so every other holder misses it. */
  lemma OthersMissOld(fat: Fat, cs: nat, root: nat, cat: Catalog, dir: nat, name: string, c: Claim)
    requires TreeOk(fat, cs, root, cat) && dir in cat
    requires IsClaim(cat, c) && c != FileClaim(dir, name)
    ensures Disjoint(ClaimChain(fat, cat, c), OldChain(fat, cat, dir, name))
  {
  }

  lemma OtherClaimKept(fat: Fat, fat': Fat, cs: nat, root: nat, cat: Catalog, dir: nat, name: string, used: seq<nat>,
                       c: Claim)
    requires TreeOk(fat, cs, root, cat) && dir in cat
    requires Relinked(fat, fat', OldChain(fat, cat, dir, name), used)
    requires IsClaim(cat, c) && c != FileClaim(dir, name)
    ensures ChainAt(fat, StartOf(cat, c)).Some? ==> ChainAt(fat', StartOf(cat, c)) == ChainAt(fat, StartOf(cat, c))
    ensures ChainFrom(fat', StartOf(cat, c)) == ClaimChain(fat, cat, c)
    ensures Disjoint(ClaimChain(fat, cat, c), used) && Disjoint(used, ClaimChain(fat, cat, c))
  {
    OthersMissOld(fat, cs, root, cat, dir, name, c);
    if ChainAt(fat, StartOf(cat, c)).Some? {
      ChainSurvives(fat, fat', OldChain(fat, cat, dir, name), used, StartOf(cat, c));
    } else {
      assert StartOf(cat, c) < FIRST_CLUSTER by {
        if c.FileClaim? { assert HasEntry(cat, c.dir, c.name); }
      }
    }
  }

  /** A step of the table that leaves the catalog as it is leaves every other holder as it is. */
  lemma StepKeepsOthers(fat: Fat, fat': Fat, cs: nat, root: nat, cat: Catalog, dir: nat, prior: string, used: seq<nat>,
                        names: set<string>)
    requires TreeOk(fat, cs, root, cat) && dir in cat && (prior in cat[dir] ==> prior in names)
    requires Relinked(fat, fat', OldChain(fat, cat, dir, prior), used)
    ensures OthersKept(fat, fat', cat, cat, dir, names)
  {
    forall c | IsClaim(cat, c) && !IsNamed(c, dir, names)
      ensures ClaimChain(fat', cat, c) == ClaimChain(fat, cat, c)
    {
      OtherClaimKept(fat, fat', cs, root, cat, dir, prior, used, c);
    }
  }

  /** The written name is the one whose chain is given back, or no chain is. */
  ghost predicate Replaces(cat: Catalog, dir: nat, prior: string, name: string) {
    dir in cat && (prior == name || prior !in cat[dir])
  }

  lemma EnterKeepsOthers(fat: Fat, fat': Fat, cs: nat, root: nat, cat: Catalog, dir: nat, prior: string, name: string,
                         used: seq<nat>, e: DirEntry)
    requires TreeOk(fat, cs, root, cat) && Replaces(cat, dir, prior, name)
    requires Relinked(fat, fat', OldChain(fat, cat, dir, prior), used)
    ensures OthersKept(fat, fat', cat, Enter(cat, dir, name, e), dir, {name})
  {
    StepKeepsOthers(fat, fat', cs, root, cat, dir, prior, used, {name});
    var cat' := Enter(cat, dir, name, e);
    forall c | IsClaim(cat, c) && !IsNamed(c, dir, {name})
      ensures IsClaim(cat', c) && ClaimChain(fat', cat', c) == ClaimChain(fat, cat, c)
    {
      SameClaim(cat, dir, name, e, c);
    }
  }

  lemma SameClaim(cat: Catalog, dir: nat, name: string, e: DirEntry, c: Claim)
    requires dir in cat && c != FileClaim(dir, name)
    ensures IsClaim(Enter(cat, dir, name, e), c) <==> IsClaim(cat, c)
    ensures IsClaim(cat, c) ==> StartOf(Enter(cat, dir, name, e), c) == StartOf(cat, c)
  {
  }

  /** One write keeps the tree: owners stay apart, chains stay terminated and cover their files. */
  lemma WriteKeepsTree(fat: Fat, fat': Fat, cs: nat, root: nat, cat: Catalog, dir: nat, prior: string, name: string,
                       used: seq<nat>, e: DirEntry)
    requires TreeOk(fat, cs, root, cat) && Replaces(cat, dir, prior, name) && !IsDotName(name)
    requires Relinked(fat, fat', OldChain(fat, cat, dir, prior), used) && FreshFile(e, used, cs)
    ensures TreeOk(fat', cs, root, Enter(cat, dir, name, e))
  {
    var cat' := Enter(cat, dir, name, e);
    forall d | d in cat' ensures ChainAt(fat', d).Some? {
      OtherClaimKept(fat, fat', cs, root, cat, dir, prior, used, DirClaim(d));
    }
    WriteKeepsEntries(fat, fat', cs, root, cat, dir, prior, name, used, e);
    forall a, b | IsClaim(cat', a) && IsClaim(cat', b) && a != b
      ensures Disjoint(ClaimChain(fat', cat', a), ClaimChain(fat', cat', b))
    {
      WriteKeepsApart(fat, fat', cs, root, cat, dir, prior, name, used, e, a, b);
    }
    EnterKeepsSubdirsOnce(cat, dir, name, e);
  }

  lemma EnterKeepsSubdirsOnce(cat: Catalog, dir: nat, name: string, e: DirEntry)
    requires dir in cat && e.IsFile() && SubdirsOnce(cat)
    ensures SubdirsOnce(Enter(cat, dir, name, e))
  {
    var cat' := Enter(cat, dir, name, e);
    assert cat'[dir][name] == e;
    assert forall d, n :: IsSubdir(cat', d, n) ==> IsSubdir(cat, d, n) && cat'[d][n] == cat[d][n];
  }

  lemma WriteKeepsEntries(fat: Fat, fat': Fat, cs: nat, root: nat, cat: Catalog, dir: nat, prior: string, name: string,
                          used: seq<nat>, e: DirEntry)
    requires TreeOk(fat, cs, root, cat) && Replaces(cat, dir, prior, name)
    requires Relinked(fat, fat', OldChain(fat, cat, dir, prior), used) && FreshFile(e, used, cs)
    ensures EntriesOk(fat', cs, root, Enter(cat, dir, name, e))
  {
    var cat' := Enter(cat, dir, name, e);
    FreshChain(fat, fat', OldChain(fat, cat, dir, prior), used, e, cs);
    forall d, n | HasEntry(cat', d, n)
      ensures if cat'[d][n].IsDir() then cat'[d][n].firstCluster in cat' && cat'[d][n].firstCluster != root
              else FileOk(fat', cs, cat'[d][n])
    {
      if d != dir || n != name {
        assert HasEntry(cat, d, n) && cat'[d][n] == cat[d][n];
        if cat[d][n].IsFile() {
          OtherClaimKept(fat, fat', cs, root, cat, dir, prior, used, FileClaim(d, n));
        }
      }
    }
  }

  lemma WriteKeepsApart(fat: Fat, fat': Fat, cs: nat, root: nat, cat: Catalog, dir: nat, prior: string, name: string,
                        used: seq<nat>, e: DirEntry, a: Claim, b: Claim)
    requires TreeOk(fat, cs, root, cat) && Replaces(cat, dir, prior, name) && !IsDotName(name)
    requires Relinked(fat, fat', OldChain(fat, cat, dir, prior), used) && FreshFile(e, used, cs)
    requires a != b && IsClaim(Enter(cat, dir, name, e), a) && IsClaim(Enter(cat, dir, name, e), b)
    ensures Disjoint(ClaimChain(fat', Enter(cat, dir, name, e), a), ClaimChain(fat', Enter(cat, dir, name, e), b))
  {
    var mine := FileClaim(dir, name);
    FreshChain(fat, fat', OldChain(fat, cat, dir, prior), used, e, cs);
    if a != mine {
      SameClaim(cat, dir, name, e, a);
      OtherClaimKept(fat, fat', cs, root, cat, dir, prior, used, a);
    }
    if b != mine {
      SameClaim(cat, dir, name, e, b);
      OtherClaimKept(fat, fat', cs, root, cat, dir, prior, used, b);
    }
  }

  /** Linking clusters that no entry names keeps the tree. */
  lemma LeakKeepsTree(fat: Fat, fat': Fat, cs: nat, root: nat, cat: Catalog, dir: nat, name: string, used: seq<nat>)
    requires TreeOk(fat, cs, root, cat) && dir in cat && name !in cat[dir]
    requires Relinked(fat, fat', [], used)
    ensures TreeOk(fat', cs, root, cat)
  {
    forall c | IsClaim(cat, c)
      ensures ClaimChain(fat', cat, c) == ClaimChain(fat, cat, c)
      ensures ChainAt(fat, StartOf(cat, c)).Some? ==> ChainAt(fat', StartOf(cat, c)).Some?
    {
      OtherClaimKept(fat, fat', cs, root, cat, dir, name, used, c);
    }
    forall d | d in cat ensures ChainAt(fat', d).Some? {
      assert IsClaim(cat, DirClaim(d)) && StartOf(cat, DirClaim(d)) == d;
    }
    forall d, n | HasEntry(cat, d, n) && cat[d][n].IsFile() ensures FileOk(fat', cs, cat[d][n]) {
      assert IsClaim(cat, FileClaim(d, n)) && StartOf(cat, FileClaim(d, n)) == cat[d][n].firstCluster;
      assert FileOk(fat, cs, cat[d][n]);
    }
    assert EntriesOk(fat', cs, root, cat);
  }

  // ---------- a catalog with fewer names ----------

  /** The same directories, with some names gone. */
  ghost predicate Fewer(cat: Catalog, cat': Catalog) {
    && cat'.Keys == cat.Keys
    && forall d, n :: d in cat && n in cat'[d] ==> n in cat[d] && cat'[d][n] == cat[d][n]
  }

  lemma DropIsFewer(cat: Catalog, dir: nat, names: set<string>)
    requires dir in cat
    ensures Fewer(cat, cat[dir := cat[dir] - names]) && SameElsewhere(cat, cat[dir := cat[dir] - names], dir, names)
  {
  }

  /** Names can go: what is left is still a tree, with the same chains. */
  lemma FewerKeepsTree(fat: Fat, cs: nat, root: nat, cat: Catalog, cat': Catalog)
    requires TreeOk(fat, cs, root, cat) && Fewer(cat, cat')
    ensures TreeOk(fat, cs, root, cat')
  {
    forall c | IsClaim(cat', c) ensures IsClaim(cat, c) && StartOf(cat', c) == StartOf(cat, c) {
      FewerClaim(cat, cat', c);
    }
    assert forall d, n :: HasEntry(cat', d, n) ==> HasEntry(cat, d, n) && cat'[d][n] == cat[d][n];
    FewerApart(fat, cat, cat');
    assert SubdirsOnce(cat') by {
      assert forall d, n :: IsSubdir(cat', d, n) ==> IsSubdir(cat, d, n) && cat'[d][n] == cat[d][n];
    }
  }

  lemma FewerClaim(cat: Catalog, cat': Catalog, c: Claim)
    requires Fewer(cat, cat') && IsClaim(cat', c)
    ensures IsClaim(cat, c) && StartOf(cat', c) == StartOf(cat, c)
  {
  }

  lemma FewerApart(fat: Fat, cat: Catalog, cat': Catalog)
    requires Fewer(cat, cat') && ClaimsApart(fat, cat)
    ensures ClaimsApart(fat, cat')
  {
    forall a, b | IsClaim(cat', a) && IsClaim(cat', b) && a != b
      ensures Disjoint(ClaimChain(fat, cat', a), ClaimChain(fat, cat', b))
    {
      FewerClaim(cat, cat', a);
      FewerClaim(cat, cat', b);
      assert Disjoint(ClaimChain(fat, cat, a), ClaimChain(fat, cat, b));
    }
  }

  lemma ClaimElsewhere(cat: Catalog, cat': Catalog, dir: nat, names: set<string>, c: Claim)
    requires SameElsewhere(cat, cat', dir, names) && IsClaim(cat, c) && !IsNamed(c, dir, names)
    ensures IsClaim(cat', c) && StartOf(cat', c) == StartOf(cat, c)
  {
    if c.FileClaim? {
      assert Get(cat'[c.dir], c.name) == Get(cat[c.dir], c.name);
    }
  }

  /** Outside the names that went, everything is kept. */
  lemma FewerKeepsOthers(fat: Fat, fat': Fat, cat: Catalog, cat': Catalog, dir: nat, names: set<string>)
    requires Fewer(cat, cat') && dir in cat && OthersKept(fat, fat', cat, cat, dir, {})
    requires SameElsewhere(cat, cat', dir, names)
    ensures OthersKept(fat, fat', cat, cat', dir, names)
  {
    forall c | IsClaim(cat, c) && !IsNamed(c, dir, names)
      ensures IsClaim(cat', c) && ClaimChain(fat', cat', c) == ClaimChain(fat, cat, c)
    {
      assert ClaimChain(fat', cat, c) == ClaimChain(fat, cat, c);
      ClaimElsewhere(cat, cat', dir, names, c);
    }
  }
}

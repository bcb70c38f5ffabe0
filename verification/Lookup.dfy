/** Paths on a volume: how a walk resolves in the catalog, and why two paths never meet. */
module Lookup {
  import opened Wrappers
  import opened Bytes
  import opened Names
  import opened DirEntries
  import opened Chains
  import opened Geometry
  import opened Directories
  import opened Paths
  import opened Engine
  import opened Refinement
  import opened Tree
  import opened Volume

  // ---------- walks in the catalog ----------

  /** The directory that `parts` leads to from `dir`. */
  ghost function DirOf(cat: Catalog, dir: nat, parts: seq<string>): Option<nat>
    decreases |parts|
  {
    if parts == [] then Some(dir)
    else if IsSubdir(cat, dir, Upper(parts[0])) then DirOf(cat, cat[dir][Upper(parts[0])].firstCluster, parts[1..])
    else None
  }

  /** The entry that a non-empty walk ends at, going through directories only. */
  ghost function Resolve(cat: Catalog, dir: nat, parts: seq<string>): Option<DirEntry>
    requires parts != []
  {
    match DirOf(cat, dir, parts[..|parts| - 1])
    case None => None
    case Some(parent) => if parent in cat then Get(cat[parent], Upper(parts[|parts| - 1])) else None
  }

  /** No component is spelled `.` or `..`. */
  ghost predicate NoDots(parts: seq<string>) {
    forall i :: 0 <= i < |parts| ==> !IsDotName(Upper(parts[i]))
  }

  /** Every entry met before the last component is a directory, or the walk ends there because nothing is found. */
  ghost predicate Passable(cat: Catalog, dir: nat, parts: seq<string>)
    decreases |parts|
  {
    |parts| <= 1 || dir !in cat || Upper(parts[0]) !in cat[dir]
    || (cat[dir][Upper(parts[0])].IsDir() && Passable(cat, cat[dir][Upper(parts[0])].firstCluster, parts[1..]))
  }

  lemma ResolveStep(cat: Catalog, dir: nat, parts: seq<string>)
    requires |parts| > 1
    ensures Resolve(cat, dir, parts)
            == if IsSubdir(cat, dir, Upper(parts[0]))
              then Resolve(cat, cat[dir][Upper(parts[0])].firstCluster, parts[1..]) else None
  {
    var init, rest := parts[..|parts| - 1], parts[1..];
    assert init[0] == parts[0] && init[1..] == rest[..|rest| - 1];
  }

  // ---------- the byte-level walk ----------

  /** Every directory can be walked, and every sub-directory is one of them. */
  ghost predicate Navigable(g: Geo, d: seq<byte>, dirs: set<nat>) {
    && Layout(g, |d|) && g.root in dirs
    && (forall c :: c in dirs ==> ChainAt(View(g, d).fat, c).Some?)
    && forall dir, name :: IsSubdir(CatalogOf(View(g, d), dirs), dir, name) ==>
         CatalogOf(View(g, d), dirs)[dir][name].firstCluster in dirs
  }

  lemma WellFormedIsNavigable(g: Geo, d: seq<byte>, dirs: set<nat>)
    requires WellFormed(g, d, dirs)
    ensures Navigable(g, d, dirs)
  {
  }

  /** Listing a directory lists its live slots. */
  lemma ListDirView(g: Geo, d: seq<byte>, c: nat)
    requires Layout(g, |d|) && ChainAt(View(g, d).fat, c).Some?
    ensures ListDir(g, d, c) == Ok(Listing(DirSlots(View(g, d), c)))
  {
    ChainFromSpec(View(g, d).fat, c);
    FollowChainView(g, d, c);
    ListChainView(g, d, ChainFrom(View(g, d).fat, c));
  }

  /** One step of the walk looks the name up in the directory's map. */
  lemma OpenStep(g: Geo, d: seq<byte>, c: nat, parts: seq<string>, last: Option<DirEntry>)
    requires Layout(g, |d|) && ChainAt(View(g, d).fat, c).Some? && parts != []
    ensures OpenFrom(g, d, c, parts, last)
            == match Get(ByName(DirSlots(View(g, d), c)), Upper(parts[0]))
               case None => Ok(None)
               case Some(e) => OpenFrom(g, d, e.firstCluster, parts[1..], Some(e))
  {
    ListDirView(g, d, c);
    ListingLookup(DirSlots(View(g, d), c), Upper(parts[0]));
  }

  lemma {:induction false} OpenFromView(g: Geo, d: seq<byte>, dirs: set<nat>, c: nat, parts: seq<string>,
                                        last: Option<DirEntry>)
    requires Navigable(g, d, dirs) && c in dirs && parts != [] && NoDots(parts)
    requires Passable(CatalogOf(View(g, d), dirs), c, parts)
    ensures OpenFrom(g, d, c, parts, last) == Ok(Resolve(CatalogOf(View(g, d), dirs), c, parts))
    decreases |parts|
  {
    hide View;
    var cat := CatalogOf(View(g, d), dirs);
    OpenStep(g, d, c, parts, last);
    if |parts| == 1 {
      assert parts[..0] == [] && parts[1..] == [];
    } else {
      ResolveStep(cat, c, parts);
      assert !IsDotName(Upper(parts[0]));
      if Upper(parts[0]) in cat[c] {
        assert IsSubdir(cat, c, Upper(parts[0]));
        var e: DirEntry := cat[c][Upper(parts[0])];
        assert NoDots(parts[1..]);
        OpenFromView(g, d, dirs, e.firstCluster, parts[1..], Some(e));
      }
    }
  }

  /** Opening a path resolves its components in the catalog. */
  lemma OpenPathView(g: Geo, d: seq<byte>, dirs: set<nat>, path: string)
    requires Navigable(g, d, dirs) && Absolute(path) && NoDots(Components(path))
    requires Passable(CatalogOf(View(g, d), dirs), g.root, Components(path))
    ensures OpenPath(g, d, path)
            == Ok(if Components(path) == [] then None
              else Resolve(CatalogOf(View(g, d), dirs), g.root, Components(path)))
  {
    if path == "/" {
      SlashHasNoComponents();
    } else if Components(path) != [] {
      OpenFromView(g, d, dirs, g.root, Components(path), None);
    }
  }

  lemma SlashHasNoComponents()
    ensures Components("/") == []
  {
    PushRender([]);
  }

  /** A path of one name looks that name up in the root. */
  lemma OneName(cat: Catalog, root: nat, name: string)
    requires root in cat && Upper(name) == name && !IsDotName(name)
    ensures NoDots([name]) && Passable(cat, root, [name]) && Resolve(cat, root, [name]) == Get(cat[root], name)
  {
    assert [name][..0] == [];
  }

  // ---------- two paths never meet ----------

  function Keys(parts: seq<string>): (k: seq<string>)
    ensures |k| == |parts|
  {
    seq(|parts|, i requires 0 <= i < |parts| => Upper(parts[i]))
  }

  lemma {:induction false} DirOfSnoc(cat: Catalog, dir: nat, parts: seq<string>, part: string)
    ensures DirOf(cat, dir, parts + [part])
            == match DirOf(cat, dir, parts)
               case None => None
               case Some(x) => if IsSubdir(cat, x, Upper(part)) then Some(cat[x][Upper(part)].firstCluster) else None
    decreases |parts|
  {
    var all := parts + [part];
    if parts == [] {
      assert all[1..] == [];
    } else {
      assert all[1..] == parts[1..] + [part];
      if IsSubdir(cat, dir, Upper(parts[0])) {
        DirOfSnoc(cat, cat[dir][Upper(parts[0])].firstCluster, parts[1..], part);
      }
    }
  }

  lemma DirOfEnd(cat: Catalog, root: nat, parts: seq<string>)
    requires parts != [] && DirOf(cat, root, parts).Some?
    ensures var init, last := parts[..|parts| - 1], parts[|parts| - 1];
            && parts == init + [last]
            && DirOf(cat, root, init).Some?
            && IsSubdir(cat, DirOf(cat, root, init).value, Upper(last))
            && DirOf(cat, root, parts) == Some(cat[DirOf(cat, root, init).value][Upper(last)].firstCluster)
  {
    var init, last := parts[..|parts| - 1], parts[|parts| - 1];
    assert parts == init + [last];
    DirOfSnoc(cat, root, init, last);
  }

  /** No entry leads back to the root, and no two entries lead to the same directory. */
  ghost predicate Rooted(cat: Catalog, root: nat) {
    SubdirsOnce(cat) && forall dir, name :: IsSubdir(cat, dir, name) ==> cat[dir][name].firstCluster != root
  }

  lemma TreeIsRooted(fat: Fat, cs: nat, root: nat, cat: Catalog)
    requires TreeOk(fat, cs, root, cat)
    ensures Rooted(cat, root)
  {
  }

  /** A directory is reached by one path only. */
  lemma {:induction false} PathsUnique(cat: Catalog, root: nat, a: seq<string>, b: seq<string>)
    requires Rooted(cat, root)
    requires DirOf(cat, root, a).Some? && DirOf(cat, root, a) == DirOf(cat, root, b)
    ensures Keys(a) == Keys(b)
    decreases |a|
  {
    if a != [] {
      var a', p := a[..|a| - 1], a[|a| - 1];
      assert a == a' + [p];
      DirOfSnoc(cat, root, a', p);
      if b != [] {
        var b', q := b[..|b| - 1], b[|b| - 1];
        assert b == b' + [q];
        DirOfSnoc(cat, root, b', q);
        PathsUnique(cat, root, a', b');
        assert Keys(a) == Keys(a') + [Upper(p)] && Keys(b) == Keys(b') + [Upper(q)];
      }
    } else if b != [] {
      assert b == b[..|b| - 1] + [b[|b| - 1]];
      DirOfSnoc(cat, root, b[..|b| - 1], b[|b| - 1]);
    }
  }

  // ---------- walks that avoid the changed names ----------

  /** The path `parts` is, or goes through, the path `at` followed by one of `names`. */
  ghost predicate GoesThrough(parts: seq<string>, at: seq<string>, names: set<string>) {
    |at| < |parts| && Keys(parts[..|at|]) == Keys(at) && Upper(parts[|at|]) in names
  }

  /** A step taken in the changed directory is at the depth of the path that leads there. */
  lemma StepGoesThrough(cat: Catalog, root: nat, at: seq<string>, dir: nat, done: seq<string>, rest: seq<string>,
                        names: set<string>)
    requires Rooted(cat, root) && rest != []
    requires DirOf(cat, root, at) == Some(dir) && DirOf(cat, root, done) == Some(dir)
    ensures Upper(rest[0]) in names ==> GoesThrough(done + rest, at, names)
  {
    PathsUnique(cat, root, at, done);
    assert |at| == |Keys(at)| == |Keys(done)| == |done|;
    assert (done + rest)[..|at|] == done && (done + rest)[|at|] == rest[0];
  }

  /** A walk of one step looks at one entry. */
  lemma LastSame(cat: Catalog, cat': Catalog, here: nat, part: string)
    requires cat'.Keys == cat.Keys && (here in cat ==> Get(cat'[here], Upper(part)) == Get(cat[here], Upper(part)))
    ensures Resolve(cat', here, [part]) == Resolve(cat, here, [part]) && Passable(cat', here, [part])
  {
    assert [part][..0] == [];
  }

  /** Off the changed names, both catalogs have the same entry. */
  lemma SameHere(cat: Catalog, cat': Catalog, root: nat, at: seq<string>, dir: nat, names: set<string>,
                 done: seq<string>, here: nat, rest: seq<string>)
    requires Rooted(cat, root) && SameElsewhere(cat, cat', dir, names)
    requires DirOf(cat, root, at) == Some(dir) && DirOf(cat, root, done) == Some(here)
    requires rest != [] && !GoesThrough(done + rest, at, names)
    ensures cat'.Keys == cat.Keys && (here in cat ==> Get(cat'[here], Upper(rest[0])) == Get(cat[here], Upper(rest[0])))
  {
    if here == dir { StepGoesThrough(cat, root, at, dir, done, rest, names); }
  }

  /** The rest of a walk that avoids the changed names sees the same entries. */
  lemma {:induction false} WalkSame(cat: Catalog, cat': Catalog, root: nat, at: seq<string>, dir: nat,
                                    names: set<string>, done: seq<string>, here: nat, rest: seq<string>)
    requires Rooted(cat, root) && SameElsewhere(cat, cat', dir, names)
    requires DirOf(cat, root, at) == Some(dir) && DirOf(cat, root, done) == Some(here)
    requires rest != [] && NoDots(rest) && !GoesThrough(done + rest, at, names) && Passable(cat, here, rest)
    ensures Resolve(cat', here, rest) == Resolve(cat, here, rest) && Passable(cat', here, rest)
    decreases |rest|
  {
    hide Rooted, SameElsewhere, DirOf, GoesThrough, Resolve, IsDotName, Upper;
    SameHere(cat, cat', root, at, dir, names, done, here, rest);
    if |rest| == 1 {
      LastSame(cat, cat', here, rest[0]);
      assert rest == [rest[0]];
    } else {
      ResolveStep(cat, here, rest);
      ResolveStep(cat', here, rest);
      if IsSubdir(cat, here, Upper(rest[0])) {
        DirOfSnoc(cat, root, done, rest[0]);
        assert (done + [rest[0]]) + rest[1..] == done + rest;
        WalkSame(cat, cat', root, at, dir, names, done + [rest[0]], cat[here][Upper(rest[0])].firstCluster, rest[1..]);
      }
    }
  }

  /** A directory that is reached without the changed names is reached as before. */
  lemma {:induction false} DirOfSame(cat: Catalog, cat': Catalog, root: nat, at: seq<string>, dir: nat,
                                     names: set<string>, parts: seq<string>)
    requires Rooted(cat, root) && SameElsewhere(cat, cat', dir, names) && DirOf(cat, root, at) == Some(dir)
    requires !GoesThrough(parts, at, names)
    ensures DirOf(cat', root, parts) == DirOf(cat, root, parts)
    decreases |parts|
  {
    if parts != [] {
      var init, last := parts[..|parts| - 1], parts[|parts| - 1];
      assert parts == init + [last];
      assert |at| < |init| ==> init[..|at|] == parts[..|at|];
      DirOfSame(cat, cat', root, at, dir, names, init);
      DirOfSnoc(cat, root, init, last);
      DirOfSnoc(cat', root, init, last);
      var here := DirOf(cat, root, init);
      if here.Some? { SameHere(cat, cat', root, at, dir, names, init, here.value, [last]); }
    }
  }

  /** In particular the changed directory itself. */
  lemma DirOfAt(cat: Catalog, cat': Catalog, root: nat, at: seq<string>, dir: nat, names: set<string>)
    requires Rooted(cat, root) && SameElsewhere(cat, cat', dir, names) && DirOf(cat, root, at) == Some(dir)
    ensures DirOf(cat', root, at) == Some(dir)
  {
    DirOfSame(cat, cat', root, at, dir, names, at);
  }
}

/** The interactive shell's current directory, over whole sessions of commands. */
module Shell {
  import opened Wrappers
  import opened Bytes
  import opened Names
  import opened Geometry
  import opened Directories
  import opened Paths
  import opened Engine
  import opened Volume
  import opened Lookup
  import opened Writes
  import opened Theorems
  import opened Promises
  import opened Runs
  import opened Fat32View

  /** `cd` with its optional argument, `put` with the host file's bytes, and the commands that only look. */
  datatype Command = Cd(argument: Option<string>) | Put(path: string, content: seq<byte>) | Look

  datatype State = State(disk: seq<byte>, cwd: string)

  function CdTarget(cwd: string, argument: Option<string>): string {
    match argument case None => "/" case Some(p) => ResolvePath(cwd, p)
  }

  /** The directory after `cd`: it changes only when the target opens to a directory entry. */
  function AfterCd(g: Geo, d: seq<byte>, cwd: string, target: string): string {
    match OpenPath(g, d, target)
    case Ok(Some(e)) => if e.IsDir() then target else cwd
    case _ => cwd
  }

  lemma ParsedClusterSize(d: seq<byte>)
    requires ParseBpb(d).Ok?
    ensures GeoOf(ParseBpb(d).value).clusterSize > 0
  {
    ClusterSizePositive(ParseBpb(d).value.bytesPerSector, ParseBpb(d).value.sectorsPerCluster);
  }

  /** One command; the header is parsed again every time, and a failed `put` leaves what the write left. */
  function Step(s: State, c: Command): State {
    if ParseBpb(s.disk).Err? then s else
      var g := GeoOf(ParseBpb(s.disk).value);
      match c
      case Look => s
      case Cd(argument) => State(s.disk, AfterCd(g, s.disk, s.cwd, CdTarget(s.cwd, argument)))
      case Put(path, content) =>
        ParsedClusterSize(s.disk);
        State(WriteFile(g, s.disk, ResolvePath(s.cwd, path), content).disk, s.cwd)
  }

  function Session(s: State, commands: seq<Command>): State
    decreases |commands|
  {
    if commands == [] then s else Session(Step(s, commands[0]), commands[1..])
  }

  /** The command loop of `run_shell`. */
  method RunShell(disk: array<byte>, commands: seq<Command>) returns (cwd: string)
    modifies disk
    ensures State(disk[..], cwd) == Session(State(old(disk[..]), "/"), commands)
  {
    cwd := "/";
    for i := 0 to |commands|
      invariant Session(State(old(disk[..]), "/"), commands) == Session(State(disk[..], cwd), commands[i..])
    {
      assert commands[i..][0] == commands[i] && commands[i..][1..] == commands[i + 1..];
      match commands[i] {
        case Look =>
        case Cd(argument) =>
          cwd := RunCd(disk[..], cwd, argument);
        case Put(path, content) =>
          RunPut(disk, cwd, path, content);
      }
    }
  }

  method RunCd(disk: seq<byte>, cwd: string, argument: Option<string>) returns (r: string)
    ensures State(disk, r) == Step(State(disk, cwd), Cd(argument))
  {
    r := cwd;
    var view := Fat32.New(disk);
    if view.Ok? {
      var target := "/";
      if argument.Some? {
        target := ResolvePathLoop(cwd, argument.value);
      }
      var found := view.value.OpenPath(target);
      if found.Ok? && found.value.Some? && found.value.value.IsDir() {
        r := target;
      }
    }
  }

  method RunPut(disk: array<byte>, cwd: string, path: string, content: seq<byte>)
    modifies disk
    ensures State(disk[..], cwd) == Step(State(old(disk[..]), cwd), Put(path, content))
  {
    var target := ResolvePathLoop(cwd, path);
    var view := Fat32Mut.New(disk);
    if view.Ok? {
      var _ := view.value.WriteFileByPath(target, content);
    }
  }

  // ---------- commands relative to the current directory ----------

  /** From a current directory with the components `here`: `put name` writes one level below it, `cd name` goes there,
      and `cd ..` goes one level up, where there is an entry to open. */
  lemma RelativeCommands(s: State, here: seq<string>, name: string, content: seq<byte>)
    requires ParseBpb(s.disk).Ok? && Canonical(here) && s.cwd == Render(here) && Ordinary(name)
    ensures var g := GeoOf(ParseBpb(s.disk).value);
            && g.clusterSize > 0
            && Step(s, Put(name, content)) == State(WriteFile(g, s.disk, Render(here + [name]), content).disk, s.cwd)
            && Step(s, Cd(Some(name))) == State(s.disk, AfterCd(g, s.disk, s.cwd, Render(here + [name])))
            && (here != [] ==>
                  Step(s, Cd(Some(".."))) == State(s.disk, AfterCd(g, s.disk, s.cwd, Render(here[..|here| - 1]))))
  {
    ParsedClusterSize(s.disk);
    ResolvePart(here, name);
    ResolvePart(here, "..");
    PutSteps(s, name, content);
    CdSteps(s, name);
    CdSteps(s, "..");
    hide Step, ResolvePath, Render, Ordinary, Canonical, WriteFile, AfterCd, ParseBpb, GeoOf;
  }

  lemma PutSteps(s: State, path: string, content: seq<byte>)
    requires ParseBpb(s.disk).Ok?
    ensures var g := GeoOf(ParseBpb(s.disk).value);
            && g.clusterSize > 0
            && Step(s, Put(path, content)) == State(WriteFile(g, s.disk, ResolvePath(s.cwd, path), content).disk, s.cwd)
  {
    ParsedClusterSize(s.disk);
  }

  lemma CdSteps(s: State, path: string)
    requires ParseBpb(s.disk).Ok?
    ensures Step(s, Cd(Some(path)))
            == State(s.disk, AfterCd(GeoOf(ParseBpb(s.disk).value), s.disk, s.cwd, ResolvePath(s.cwd, path)))
  {
  }

  /** On a buffer without a usable header no command does anything. */
  lemma NoHeaderNoCommand(s: State, c: Command)
    requires ParseBpb(s.disk).Err?
    ensures Step(s, c) == s
  {
  }

  // ---------- the root is never entered again ----------

  /** `cd` to the root is refused: the root has no entry of its own to open. */
  lemma CdRootRefused(s: State, c: Command)
    ensures Step(s, c).cwd == "/" ==> s.cwd == "/"
    ensures c.Cd? && CdTarget(s.cwd, c.argument) == "/" ==> Step(s, c) == s
  {
  }

  /** So a session that has left the root never comes back to it, whatever it does. */
  lemma {:induction false} NeverBackToRoot(s: State, commands: seq<Command>)
    requires s.cwd != "/"
    ensures Session(s, commands).cwd != "/"
    decreases |commands|
  {
    if commands != [] {
      CdRootRefused(s, commands[0]);
      NeverBackToRoot(Step(s, commands[0]), commands[1..]);
    }
  }

  // ---------- the current directory stays a directory ----------

  lemma UpperDots(part: string)
    requires IsDotName(Upper(part))
    ensures IsDotName(part)
  {
    forall i | 0 <= i < |part| ensures part[i] == Upper(part)[i] {
      assert Upper(part)[i] == (if Upper(part) == "." then "." else "..")[i] == '.';
    }
    assert part == Upper(part);
  }

  lemma CanonicalHasNoDots(parts: seq<string>)
    requires Canonical(parts)
    ensures NoDots(parts)
  {
    forall i | 0 <= i < |parts| ensures !IsDotName(Upper(parts[i])) {
      assert Ordinary(parts[i]);
      if IsDotName(Upper(parts[i])) { UpperDots(parts[i]); }
    }
  }

  /** A path that leads to a directory of the catalog opens to that directory's entry. */
  lemma DirOpens(g: Geo, d: seq<byte>, dirs: set<nat>, path: string)
    requires Navigable(g, d, dirs) && Absolute(path) && Components(path) != [] && NoDots(Components(path))
    requires DirOf(CatalogOf(View(g, d), dirs), g.root, Components(path)).Some?
    ensures var found := OpenPath(g, d, path);
            && found.Ok? && found.value.Some? && found.value.value.IsDir()
            && Some(found.value.value.firstCluster) == DirOf(CatalogOf(View(g, d), dirs), g.root, Components(path))
  {
    var cat, parts := CatalogOf(View(g, d), dirs), Components(path);
    var init, last := parts[..|parts| - 1], parts[|parts| - 1];
    DirOfEnd(cat, g.root, parts);
    assert NoDots(init) && !IsDotName(Upper(last));
    OpenAt(g, d, dirs, path, init, last, DirOf(cat, g.root, init).value);
  }

  /** The converse: a path that passes directories only and opens to a directory entry leads to it. */
  lemma OpensDir(g: Geo, d: seq<byte>, dirs: set<nat>, path: string)
    requires Navigable(g, d, dirs) && Absolute(path) && NoDots(Components(path))
    requires Passable(CatalogOf(View(g, d), dirs), g.root, Components(path))
    requires OpenPath(g, d, path).Ok? && OpenPath(g, d, path).value.Some? && OpenPath(g, d, path).value.value.IsDir()
    ensures DirOf(CatalogOf(View(g, d), dirs), g.root, Components(path)).Some?
  {
    OpenPathView(g, d, dirs, path);
    ResolvedDir(CatalogOf(View(g, d), dirs), dirs, g.root, Components(path));
  }

  /** The current directory is spelled canonically and is a directory of the volume. */
  ghost predicate InDirectory(g: Geo, s: State, dirs: set<nat>) {
    && ParseBpb(s.disk).Ok? && GeoOf(ParseBpb(s.disk).value) == g
    && WellFormed(g, s.disk, dirs)
    && Canonical(Components(s.cwd)) && s.cwd == Render(Components(s.cwd))
    && DirOf(Before(g, s.disk, dirs), g.root, Components(s.cwd)).Some?
  }

  /** `cd` walks through directories only. */
  ghost predicate CdInside(g: Geo, s: State, dirs: set<nat>, argument: Option<string>)
    requires Layout(g, |s.disk|)
  {
    Passable(Before(g, s.disk, dirs), g.root, Components(CdTarget(s.cwd, argument)))
  }

  /** A command that stays inside the tree: `cd` walks through directories only; `put` is a call that the first image of
      the session admits, and does not lose the old file. */
  ghost predicate TameCommand(g: Geo, first: seq<byte>, s: State, dirs: set<nat>, c: Command)
    requires Layout(g, |first|) && Layout(g, |s.disk|)
  {
    match c
    case Look => true
    case Cd(argument) => CdInside(g, s, dirs, argument)
    case Put(path, content) =>
      var op := Write(ResolvePath(s.cwd, path), content);
      Admits(g, first, dirs, op) && LosesNothing(g, s.disk, dirs, op)
  }

  ghost predicate TameSession(g: Geo, first: seq<byte>, s: State, dirs: set<nat>, commands: seq<Command>)
    requires Layout(g, |first|)
    decreases |commands|
  {
    commands != [] ==>
      && Layout(g, |s.disk|) && TameCommand(g, first, s, dirs, commands[0])
      && TameSession(g, first, Step(s, commands[0]), dirs, commands[1..])
  }

  lemma TargetIsCanonical(cwd: string, argument: Option<string>)
    ensures var t := CdTarget(cwd, argument);
            Canonical(Components(t)) && t == Render(Components(t)) && Absolute(t)
  {
    match argument
    case None => PushRender([]);
    case Some(p) => ResolveIsCanonical(cwd, p, "/");
  }

  lemma CdKeepsDirectory(g: Geo, s: State, dirs: set<nat>, argument: Option<string>)
    requires InDirectory(g, s, dirs) && CdInside(g, s, dirs, argument)
    ensures InDirectory(g, Step(s, Cd(argument)), dirs) && Step(s, Cd(argument)).disk == s.disk
  {
    var t := CdTarget(s.cwd, argument);
    TargetIsCanonical(s.cwd, argument);
    CanonicalHasNoDots(Components(t));
    WellFormedIsNavigable(g, s.disk, dirs);
    CdIs(g, s, dirs, argument);
    hide WellFormed, Step, CdTarget, ResolvePath, Navigable, View, CatalogOf, Components, Canonical, Render, NoDots,
      DirOf, Passable;
    if AfterCd(g, s.disk, s.cwd, t) != s.cwd {
      OpensDir(g, s.disk, dirs, t);
      MovedTo(g, s, dirs, t);
    }
  }

  /** `cd` to another place goes there exactly when that is not the root and the path leads to a directory. */
  lemma CdMovesIff(g: Geo, s: State, dirs: set<nat>, argument: Option<string>)
    requires InDirectory(g, s, dirs) && CdInside(g, s, dirs, argument)
    ensures var t := CdTarget(s.cwd, argument);
            t != s.cwd ==>
              (Step(s, Cd(argument)).cwd == t
               <==> t != "/" && DirOf(Before(g, s.disk, dirs), g.root, Components(t)).Some?)
    ensures Step(s, Cd(argument)).cwd == s.cwd || Step(s, Cd(argument)).cwd == CdTarget(s.cwd, argument)
  {
    var t := CdTarget(s.cwd, argument);
    TargetIsCanonical(s.cwd, argument);
    CanonicalHasNoDots(Components(t));
    WellFormedIsNavigable(g, s.disk, dirs);
    CdIs(g, s, dirs, argument);
    hide WellFormed, Step, CdTarget, ResolvePath, Navigable, View, CatalogOf, Components, Canonical, Render, NoDots,
      DirOf, Passable;
    if AfterCd(g, s.disk, s.cwd, t) != s.cwd {
      OpensDir(g, s.disk, dirs, t);
    } else if t != "/" && DirOf(Before(g, s.disk, dirs), g.root, Components(t)).Some? {
      NotSlash(t);
      DirOpens(g, s.disk, dirs, t);
    }
  }

  lemma NotSlash(t: string)
    requires t == Render(Components(t)) && t != "/"
    ensures Components(t) != []
  {
  }

  lemma MovedTo(g: Geo, s: State, dirs: set<nat>, t: string)
    requires InDirectory(g, s, dirs)
    requires Canonical(Components(t)) && t == Render(Components(t))
    requires DirOf(Before(g, s.disk, dirs), g.root, Components(t)).Some?
    ensures InDirectory(g, State(s.disk, t), dirs)
  {
  }

  lemma Rewritten(g: Geo, s: State, dirs: set<nat>, d': seq<byte>)
    requires InDirectory(g, s, dirs) && HeaderKept(g, s.disk, d') && WellFormed(g, d', dirs)
    requires DirOf(Before(g, d', dirs), g.root, Components(s.cwd))
             == DirOf(Before(g, s.disk, dirs), g.root, Components(s.cwd))
    ensures InDirectory(g, State(d', s.cwd), dirs)
  {
    ParseBpbFrame(s.disk, d');
  }

  lemma PutKeepsDirectory(g: Geo, first: seq<byte>, s: State, dirs: set<nat>, path: string, content: seq<byte>)
    requires InDirectory(g, s, dirs) && SameDirs(g, first, s.disk, dirs)
    requires TameCommand(g, first, s, dirs, Put(path, content))
    ensures InDirectory(g, Step(s, Put(path, content)), dirs)
    ensures SameDirs(g, first, Step(s, Put(path, content)).disk, dirs)
  {
    var op := Write(ResolvePath(s.cwd, path), content);
    PutIs(g, s, dirs, path, content);
    hide Step, SameDirs, WellFormed, Admits, LosesNothing, View, CatalogOf, TreeOf, HeaderKept, DirOf, WriteFile,
      Applied, ResolvePath, Canonical, Render, Components;
    AdmittedStep(g, first, s.disk, dirs, op);
    var d' := WriteFile(g, s.disk, op.path, op.content).disk;
    SameDirsReach(g, first, s.disk, dirs, Components(s.cwd));
    SameDirsReach(g, first, d', dirs, Components(s.cwd));
    Rewritten(g, s, dirs, d');
  }

  lemma PutIs(g: Geo, s: State, dirs: set<nat>, path: string, content: seq<byte>)
    requires InDirectory(g, s, dirs)
    ensures g.clusterSize > 0
    ensures Step(s, Put(path, content))
            == State(WriteFile(g, s.disk, ResolvePath(s.cwd, path), content).disk, s.cwd)
  {
    PutSteps(s, path, content);
    hide Step, WriteFile, WellFormed, Canonical, Render, Components, CatalogOf, DirOf, ResolvePath, GeoOf, ParseBpb,
      View;
  }

  lemma CdIs(g: Geo, s: State, dirs: set<nat>, argument: Option<string>)
    requires InDirectory(g, s, dirs)
    ensures Step(s, Cd(argument)) == State(s.disk, AfterCd(g, s.disk, s.cwd, CdTarget(s.cwd, argument)))
  {
  }

  /** The current directory is `/` or opens to a directory. */
  ghost predicate CwdOpens(g: Geo, s: State) {
    || s.cwd == "/"
    || (OpenPath(g, s.disk, s.cwd).Ok? && OpenPath(g, s.disk, s.cwd).value.Some?
        && OpenPath(g, s.disk, s.cwd).value.value.IsDir())
  }

  lemma DirectoryOpens(g: Geo, s: State, dirs: set<nat>)
    requires InDirectory(g, s, dirs)
    ensures CwdOpens(g, s)
  {
    WellFormedIsNavigable(g, s.disk, dirs);
    CanonicalHasNoDots(Components(s.cwd));
    if Components(s.cwd) != [] { DirOpens(g, s.disk, dirs, s.cwd); }
  }

  lemma LookIs(s: State)
    ensures Step(s, Look) == s
  {
  }

  /** In every tame session the current directory is spelled canonically, and is `/` or opens to a directory; and the
      volume stays well-formed. */
  lemma {:induction false} SessionStaysInDirectory(g: Geo, first: seq<byte>, s: State, dirs: set<nat>,
                                                   commands: seq<Command>)
    requires InDirectory(g, s, dirs) && SameDirs(g, first, s.disk, dirs)
    requires TameSession(g, first, s, dirs, commands)
    ensures InDirectory(g, Session(s, commands), dirs) && CwdOpens(g, Session(s, commands))
    decreases |commands|
  {
    hide InDirectory, SameDirs, CwdOpens, Step, Admits, LosesNothing, CdInside;
    if commands == [] {
      DirectoryOpens(g, s, dirs);
    } else {
      match commands[0]
      case Look =>
        LookIs(s);
        SessionStaysInDirectory(g, first, s, dirs, commands[1..]);
      case Cd(argument) =>
        CdKeepsDirectory(g, s, dirs, argument);
        SessionStaysInDirectory(g, first, Step(s, commands[0]), dirs, commands[1..]);
      case Put(path, content) =>
        PutKeepsDirectory(g, first, s, dirs, path, content);
        SessionStaysInDirectory(g, first, Step(s, commands[0]), dirs, commands[1..]);
    }
  }

  lemma SessionStarts(d: seq<byte>, dirs: set<nat>)
    requires ParseBpb(d).Ok? && WellFormed(GeoOf(ParseBpb(d).value), d, dirs)
    ensures InDirectory(GeoOf(ParseBpb(d).value), State(d, "/"), dirs)
    ensures SameDirs(GeoOf(ParseBpb(d).value), d, d, dirs)
  {
    SlashHasNoComponents();
  }

  /** A whole session, from the root of a well-formed volume: after every tame run of commands the current directory
      is spelled canonically, and is `/` or opens to a directory. */
  lemma SessionFromRoot(d: seq<byte>, dirs: set<nat>, commands: seq<Command>)
    requires ParseBpb(d).Ok? && WellFormed(GeoOf(ParseBpb(d).value), d, dirs)
    requires TameSession(GeoOf(ParseBpb(d).value), d, State(d, "/"), dirs, commands)
    ensures var g, r := GeoOf(ParseBpb(d).value), Session(State(d, "/"), commands);
            InDirectory(g, r, dirs) && CwdOpens(g, r)
  {
    SessionStarts(d, dirs);
    SessionStaysInDirectory(GeoOf(ParseBpb(d).value), d, State(d, "/"), dirs, commands);
  }
}

/** Slash-separated paths: the pieces a reader walks, the parent split, and the shell's resolution. */
module Paths {
  import opened Wrappers
  import opened Names

  // ---------- pieces ----------

  /** `str::split('/')`: the pieces between slashes, possibly empty ones. */
  function Split(s: string): (r: seq<string>)
    ensures r != []
    ensures forall i :: 0 <= i < |r| ==> '/' !in r[i]
  {
    match LastIndexOf(s, '/')
    case None => [s]
    case Some(i) => Split(s[..i]) + [s[i + 1..]]
  }

  function NonEmpty(parts: seq<string>): seq<string> {
    if parts == [] then []
    else if parts[|parts| - 1] == "" then NonEmpty(parts[..|parts| - 1])
    else NonEmpty(parts[..|parts| - 1]) + [parts[|parts| - 1]]
  }

  /** The components a path walk visits. */
  function Components(path: string): seq<string> {
    NonEmpty(Split(path))
  }

  // ---------- split_parent ----------

  /** `trim_end_matches('/')`. */
  function TrimSlashes(path: string): (r: string)
    ensures r <= path
    ensures r == "" || r[|r| - 1] != '/'
  {
    if path != "" && path[|path| - 1] == '/' then TrimSlashes(path[..|path| - 1]) else path
  }

  /** `split_parent`. */
  function SplitParent(path: string): Result<(string, string)> {
    var p := TrimSlashes(path);
    if p == "/" then Err(Other) else
      match LastIndexOf(p, '/')
      case None => Err(Other)
      case Some(i) =>
        var parent := if i == 0 then "/" else p[..i];
        if p[i + 1..] == "" then Err(Other) else Ok((parent, p[i + 1..]))
  }

  lemma NonEmptySnoc(parts: seq<string>, part: string)
    ensures NonEmpty(parts + [part]) == if part == "" then NonEmpty(parts) else NonEmpty(parts) + [part]
  {
    assert (parts + [part])[..|parts|] == parts;
  }

  lemma SplitSnoc(s: string, part: string)
    requires '/' !in part
    ensures Split(s + "/" + part) == Split(s) + [part]
  {
    var t := s + "/" + part;
    assert t[|s| + 1..] == part && t[..|s|] == s;
    LastIndexUnique(t, '/', |s|);
  }

  lemma ComponentsSnoc(s: string, part: string)
    requires '/' !in part
    ensures Split(s + "/" + part) == Split(s) + [part]
    ensures Components(s + "/" + part) == if part == "" then Components(s) else Components(s) + [part]
  {
    SplitSnoc(s, part);
    NonEmptySnoc(Split(s), part);
  }

  lemma DropSlash(path: string)
    requires path != "" && path[|path| - 1] == '/'
    ensures Components(path[..|path| - 1]) == Components(path)
  {
    var s := path[..|path| - 1];
    hide Components, Split;
    assert path == s + "/" + "";
    ComponentsSnoc(s, "");
  }

  lemma {:induction false} ComponentsTrim(path: string)
    ensures Components(TrimSlashes(path)) == Components(path)
  {
    hide Components;
    if path != "" && path[|path| - 1] == '/' {
      DropSlash(path);
      ComponentsTrim(path[..|path| - 1]);
    }
  }

  /** Splitting off the parent splits off the last component, for every path that has one. */
  lemma SplitParentComponents(path: string)
    requires SplitParent(path).Ok?
    ensures var (parent, name) := SplitParent(path).value;
            && Components(path) == Components(parent) + [name]
            && name != "" && '/' !in name
  {
    var p := TrimSlashes(path);
    var (parent, name) := SplitParent(path).value;
    var i := LastIndexOf(p, '/').value;
    ComponentsTrim(path);
    assert p == p[..i] + "/" + name;
    ComponentsSnoc(p[..i], name);
    if i == 0 {
      assert p[..i] == "" && parent == "" + "/" + "";
      ComponentsSnoc("", "");
    }
  }

  /** The split fails exactly on the paths without a component, or without any slash before the last one. */
  lemma SplitParentFails(path: string)
    requires path != "" && path[0] == '/'
    ensures SplitParent(path).Err? <==> Components(path) == []
    ensures SplitParent(path).Err? ==> SplitParent(path) == Err(Other)
  {
    var p := TrimSlashes(path);
    ComponentsTrim(path);
    if p != "" {
      assert p[0] == '/';
      var i := LastIndexOf(p, '/').value;
      assert p[i + 1..] != "";
      SplitParentComponents(path);
    } else {
      NonEmptySnoc([], "");
      assert Split("") == [""] == [] + [""];
    }
  }

  /** The parent is the text before the last slash, or the root when there is none; trailing slashes do not count. */
  lemma SplitParentIs(parent: string, name: string)
    requires name != "" && '/' !in name
    ensures SplitParent(parent + "/" + name) == Ok((if parent == "" then "/" else parent, name))
    ensures SplitParent(parent + "/" + name + "/") == SplitParent(parent + "/" + name)
  {
    var path := parent + "/" + name;
    assert path[|path| - 1] == name[|name| - 1] && name[|name| - 1] in name;
    assert (path + "/")[..|path|] == path;
    assert TrimSlashes(path) == path && TrimSlashes(path + "/") == path;
    assert path[|parent|] == '/' && path[|parent| + 1..] == name && path[..|parent|] == parent;
    LastIndexUnique(path, '/', |parent|);
  }

  // ---------- resolve_path ----------

  /** `push_component`. */
  function Push(components: seq<string>, part: string): seq<string> {
    if part == "" || part == "." then components
    else if part == ".." then (if components == [] then [] else components[..|components| - 1])
    else components + [part]
  }

  function PushAll(components: seq<string>, parts: seq<string>): seq<string>
    decreases |parts|
  {
    if parts == [] then components
    else Push(PushAll(components, parts[..|parts| - 1]), parts[|parts| - 1])
  }

  /** `components.join("/")`. */
  function Join(components: seq<string>): string {
    if components == [] then ""
    else if |components| == 1 then components[0]
    else Join(components[..|components| - 1]) + "/" + components[|components| - 1]
  }

  function Render(components: seq<string>): string {
    if components == [] then "/" else "/" + Join(components)
  }

  function Resolved(current: string, path: string): seq<string> {
    if path != "" && path[0] == '/' then PushAll([], Split(path))
    else PushAll(PushAll([], Split(current)), Split(path))
  }

  /** `resolve_path`. */
  function ResolvePath(current: string, path: string): string {
    Render(Resolved(current, path))
  }

  method PushComponent(components: seq<string>, part: string) returns (r: seq<string>)
    ensures r == Push(components, part)
  {
    r := components;
    if part == "" || part == "." {
    } else if part == ".." {
      if r != [] { r := r[..|r| - 1]; }
    } else {
      r := r + [part];
    }
  }

  method PushParts(components: seq<string>, parts: seq<string>) returns (r: seq<string>)
    ensures r == PushAll(components, parts)
  {
    r := components;
    for i := 0 to |parts|
      invariant r == PushAll(components, parts[..i])
    {
      assert parts[..i + 1][..i] == parts[..i];
      r := PushComponent(r, parts[i]);
    }
    assert parts[..|parts|] == parts;
  }

  method ResolvePathLoop(current: string, path: string) returns (result: string)
    ensures result == ResolvePath(current, path)
  {
    var components := [];
    if path != "" && path[0] == '/' {
      components := PushParts(components, Split(path));
    } else {
      components := PushParts(components, Split(current));
      components := PushParts(components, Split(path));
    }
    if components == [] {
      result := "/";
    } else {
      result := "/" + Join(components);
    }
  }

  // ---------- canonical paths ----------

  /** A component that names an entry: non-empty, no slash, neither `.` nor `..`. */
  predicate Ordinary(part: string) {
    part != "" && '/' !in part && part != "." && part != ".."
  }

  ghost predicate Canonical(components: seq<string>) {
    forall i :: 0 <= i < |components| ==> Ordinary(components[i])
  }

  ghost predicate SlashFree(parts: seq<string>) {
    forall i :: 0 <= i < |parts| ==> '/' !in parts[i]
  }

  /** Resolution only ever keeps ordinary components. */
  lemma {:induction false} PushAllCanonical(components: seq<string>, parts: seq<string>)
    requires Canonical(components) && SlashFree(parts)
    ensures Canonical(PushAll(components, parts))
    decreases |parts|
  {
    if parts != [] {
      PushAllCanonical(components, parts[..|parts| - 1]);
    }
  }

  lemma ResolvedCanonical(current: string, path: string)
    ensures Canonical(Resolved(current, path))
  {
    PushAllCanonical([], Split(path));
    PushAllCanonical([], Split(current));
    PushAllCanonical(PushAll([], Split(current)), Split(path));
  }

  /** Ordinary components are pushed unchanged. */
  lemma {:induction false} PushAllOrdinary(components: seq<string>, parts: seq<string>)
    requires Canonical(parts)
    ensures PushAll(components, parts) == components + parts
    decreases |parts|
  {
    if parts != [] {
      PushAllOrdinary(components, parts[..|parts| - 1]);
      assert Ordinary(parts[|parts| - 1]);
      assert parts == parts[..|parts| - 1] + [parts[|parts| - 1]];
    }
  }

  lemma {:induction false} PushAllConcat(components: seq<string>, a: seq<string>, b: seq<string>)
    ensures PushAll(components, a + b) == PushAll(PushAll(components, a), b)
    decreases |b|
  {
    if b == [] {
      assert a + b == a;
    } else {
      assert (a + b)[..|a + b| - 1] == a + b[..|b| - 1];
      PushAllConcat(components, a, b[..|b| - 1]);
    }
  }

  /** The pieces of a rendered path are its components behind one empty piece. */
  lemma {:induction false} SplitRender(components: seq<string>)
    requires Canonical(components) && components != []
    ensures Split(Render(components)) == [""] + components
    decreases |components|
  {
    var last := components[|components| - 1];
    var init := components[..|components| - 1];
    assert Ordinary(last);
    assert components == init + [last];
    if init == [] {
      assert components == [last];
      SplitRenderOne(last);
    } else {
      SplitRender(init);
      SplitRenderSnoc(init, last);
    }
  }

  lemma SplitRenderOne(part: string)
    requires '/' !in part
    ensures Split(Render([part])) == [""] + [part]
  {
    ComponentsSnoc("", part);
    assert Split("") == [""];
    assert "" + "/" + part == "/" + part;
  }

  lemma SplitRenderSnoc(init: seq<string>, last: string)
    requires init != [] && '/' !in last && Split(Render(init)) == [""] + init
    ensures Split(Render(init + [last])) == [""] + (init + [last])
  {
    RenderSnoc(init, last);
    SplitSnoc(Render(init), last);
    Regroup([""], init, [last]);
  }

  lemma RenderSnoc(init: seq<string>, last: string)
    requires init != []
    ensures Render(init + [last]) == Render(init) + "/" + last
  {
    assert (init + [last])[..|init|] == init;
  }

  /** Reading a rendered path back gives its components. */
  lemma PushRender(components: seq<string>)
    requires Canonical(components)
    ensures PushAll([], Split(Render(components))) == components
    ensures Components(Render(components)) == components
  {
    if components == [] {
      assert "/" == "" + "/" + "";
      ComponentsSnoc("", "");
      assert Split("/") == [""] + [""];
      PushAllConcat([], [""], [""]);
    } else {
      SplitRender(components);
      PushAllConcat([], [""], components);
      PushAllOrdinary([], components);
      ComponentsOrdinary(components);
    }
  }

  lemma {:induction false} ComponentsOrdinary(components: seq<string>)
    requires Canonical(components)
    ensures NonEmpty([""] + components) == components
    decreases |components|
  {
    if components != [] {
      var init, last := components[..|components| - 1], components[|components| - 1];
      assert Ordinary(last);
      ComponentsOrdinary(init);
      assert [""] + components == ([""] + init) + [last];
      NonEmptySnoc([""] + init, last);
    }
  }

  /** Every resolved path is `/` or slash-joined ordinary components, and resolving it again changes nothing. */
  lemma ResolveIsCanonical(current: string, path: string, other: string)
    ensures var r := ResolvePath(current, path);
            && Canonical(Components(r)) && r == Render(Components(r))
            && ResolvePath(other, r) == r
  {
    ResolvedCanonical(current, path);
    PushRender(Resolved(current, path));
  }

  lemma {:induction false} SplitConcat(p: string, q: string)
    ensures Split(p + "/" + q) == Split(p) + Split(q)
    decreases |q|
  {
    match LastIndexOf(q, '/')
    case None =>
      ComponentsSnoc(p, q);
    case Some(i) =>
      SplitConcat(p, q[..i]);
      assert q == q[..i] + "/" + q[i + 1..];
      SplitConcatStep(p, q[..i], q[i + 1..]);
  }

  lemma SplitConcatStep(p: string, a: string, b: string)
    requires '/' !in b && Split(p + "/" + a) == Split(p) + Split(a)
    ensures Split(p + "/" + (a + "/" + b)) == Split(p) + Split(a + "/" + b)
  {
    Regroup(p + "/", a + "/", b);
    Regroup(p + "/", a, "/");
    SplitSnoc(p + "/" + a, b);
    SplitSnoc(a, b);
    Regroup(Split(p), Split(a), [b]);
  }

  lemma Regroup<T>(x: seq<T>, y: seq<T>, z: seq<T>)
    ensures x + (y + z) == (x + y) + z
  {
  }

  /** Two resolutions in a row are one resolution of the joined path. */
  lemma ResolveCompose(current: string, p: string, q: string)
    requires p != "" && (q == "" || q[0] != '/')
    ensures ResolvePath(ResolvePath(current, p), q) == ResolvePath(current, p + "/" + q)
  {
    SplitConcat(p, q);
    ResolvedCanonical(current, p);
    PushRender(Resolved(current, p));
    assert (p + "/" + q)[0] == p[0];
    PushAllConcat([], Split(p), Split(q));
    PushAllConcat(PushAll([], Split(current)), Split(p), Split(q));
  }

  // ---------- what one part of a path does ----------

  /** One part resolved from a canonical directory: `..` goes to the parent, and stays in the root; `.` and nothing
      stay; an ordinary name goes one level down. */
  lemma ResolvePart(components: seq<string>, part: string)
    requires Canonical(components) && '/' !in part
    ensures part == ".." && components == [] ==> ResolvePath(Render(components), part) == "/"
    ensures part == ".." && components != [] ==>
              ResolvePath(Render(components), part) == Render(components[..|components| - 1])
    ensures part == "." || part == "" ==> ResolvePath(Render(components), part) == Render(components)
    ensures Ordinary(part) ==> ResolvePath(Render(components), part) == Render(components + [part])
  {
    PushRender(components);
    PushOne(components, part);
    assert part != "" ==> part[0] in part;
    hide Render, PushAll, Split;
    assert ResolvePath(Render(components), part) == Render(Push(components, part));
  }

  lemma PushOne(components: seq<string>, part: string)
    requires '/' !in part
    ensures PushAll(components, Split(part)) == Push(components, part)
  {
    assert Split(part) == [part];
    assert [part][..0] == [];
  }

  /** A rendered path: the root is one slash, and every component follows a slash of its own. */
  lemma RenderParts(components: seq<string>, part: string)
    ensures Render([]) == "/" && Render([part]) == "/" + part
    ensures components != [] ==> Render(components + [part]) == Render(components) + "/" + part
  {
    if components != [] { RenderSnoc(components, part); }
  }

  /** An absolute path does not look at the current directory. */
  lemma ResolveAbsolute(current: string, other: string, path: string)
    requires path != "" && path[0] == '/'
    ensures ResolvePath(current, path) == ResolvePath(other, path)
  {
  }

  /** Going down and up again leads nowhere else. */
  lemma DownAndUp(current: string, path: string, part: string)
    requires path != "" && Ordinary(part)
    ensures ResolvePath(current, path + "/" + part + "/" + "..") == ResolvePath(current, path)
  {
    var down := path + "/" + part;
    SplitSnoc(path, part);
    SplitSnoc(down, "..");
    Regroup(Split(path), [part], [".."]);
    assert (down + "/" + "..")[0] == path[0];
    ThereAndBack([], Split(path), part);
    ThereAndBack(PushAll([], Split(current)), Split(path), part);
  }

  lemma ThereAndBack(components: seq<string>, parts: seq<string>, part: string)
    requires Ordinary(part)
    ensures PushAll(components, parts + [part] + [".."]) == PushAll(components, parts)
  {
    var one, two := parts + [part], parts + [part] + [".."];
    assert two[..|two| - 1] == one && one[..|one| - 1] == parts;
  }

  lemma OneLevel(part: string)
    requires Ordinary(part)
    ensures Canonical([part]) && Render([part]) == "/" + part && Render([]) == "/"
  {
    RenderParts([], part);
  }

  lemma ToParent()
    ensures ResolvePath("/DIR", "..") == "/"
  {
    OneLevel("DIR");
    hide ResolvePath, Render;
    assert "/" + "DIR" == "/DIR";
    ResolvePart(["DIR"], "..");
    assert ["DIR"][..0] == [];
  }

  /** A file named with `./` is one level down. */
  lemma HereThenDown(components: seq<string>, part: string)
    requires Canonical(components) && Ordinary(part)
    ensures ResolvePath(Render(components), "." + "/" + part) == Render(components + [part])
  {
    ResolvePart(components, ".");
    ResolvePart(components, part);
    assert part[0] != '/' by { assert part[0] in part; }
    hide ResolvePath, Render;
    ResolveCompose(Render(components), ".", part);
  }

  lemma FileHere(dir: string, file: string)
    requires Ordinary(dir) && Ordinary(file)
    ensures ResolvePath("/" + dir, "." + "/" + file) == "/" + dir + "/" + file
  {
    OneLevel(dir);
    RenderParts([dir], file);
    hide ResolvePath, Render;
    HereThenDown([dir], file);
  }

  lemma Spelling()
    ensures "/" + "DIR" == "/DIR" && "." + "/" + "FILE.TXT" == "./FILE.TXT"
    ensures "/DIR" + "/" + "FILE.TXT" == "/DIR/FILE.TXT"
  {
  }

  lemma ToFileHere()
    ensures ResolvePath("/DIR", "./FILE.TXT") == "/DIR/FILE.TXT"
  {
    SomeOrdinary();
    Spelling();
    hide ResolvePath, Ordinary;
    FileHere("DIR", "FILE.TXT");
  }

  lemma SomeOrdinary()
    ensures Ordinary("DIR") && Ordinary("FILE.TXT")
  {
  }

  lemma ToElsewhere()
    ensures ResolvePath("/DIR", "/AUTRE/XX") == "/AUTRE/XX"
  {
    OneLevel("AUTRE");
    RenderParts(["AUTRE"], "XX");
    hide Render, Split, PushAll;
    assert "/" + "AUTRE" == "/AUTRE" && "/AUTRE" + "/" + "XX" == "/AUTRE/XX";
    PushRender(["AUTRE"] + ["XX"]);
  }

  /** Three resolutions that the shell's users rely on. */
  lemma ResolveExamples()
    ensures ResolvePath("/DIR", "..") == "/"
    ensures ResolvePath("/DIR", "./FILE.TXT") == "/DIR/FILE.TXT"
    ensures ResolvePath("/DIR", "/AUTRE/XX") == "/AUTRE/XX"
  {
    hide ResolvePath;
    ToParent();
    ToFileHere();
    ToElsewhere();
  }
}

/** Short 8.3 names: the encoder of the write path, the decoder of the read path, and how they meet. */
module Names {
  import opened Wrappers
  import opened Bytes

  const SPACE: byte := 0x20
  const DOT: byte := 0x2E

  /** The raw form of a name: 8 base bytes followed by 3 extension bytes. */
  type RawName = raw: seq<byte> | |raw| == 11 witness [0, 0, 0, 0, 0, 0, 0, 0, 0, 0, 0]

  // ---------- upper-casing ----------

  function UpperChar(c: char): char {
    if 'a' <= c <= 'z' then (c as int - 32) as char else c
  }

  function Upper(s: string): (r: string)
    ensures |r| == |s|
  {
    seq(|s|, i requires 0 <= i < |s| => UpperChar(s[i]))
  }

  /** `normalize_name`: pushes the upper-cased characters one by one. */
  method NormalizeName(s: string) returns (out: string)
    ensures out == Upper(s)
  {
    out := "";
    for i := 0 to |s|
      invariant out == Upper(s)[..i]
    {
      out := out + [UpperChar(s[i])];
    }
  }

  // ---------- encoding ----------

  /** `str::rfind` for one character. */
  function LastIndexOf(s: string, c: char): (r: Option<nat>)
    ensures r.None? ==> c !in s
    ensures r.Some? ==> r.value < |s| && s[r.value] == c && c !in s[r.value + 1..]
  {
    if s == "" then None
    else if s[|s| - 1] == c then Some(|s| - 1)
    else LastIndexOf(s[..|s| - 1], c)
  }

  function BaseOf(name: string): string {
    match LastIndexOf(name, '.') case None => name case Some(dot) => name[..dot]
  }

  function ExtOf(name: string): string {
    match LastIndexOf(name, '.') case None => "" case Some(dot) => name[dot + 1..]
  }

  /** A character the encoder accepts inside a base or an extension. */
  predicate Plain(c: char) {
    c as int < 128 && c != '/'
  }

  predicate AllPlain(s: string) {
    forall i :: 0 <= i < |s| ==> Plain(s[i])
  }

  /** `s` upper-cased, as bytes, padded with spaces to `width`. */
  function Field(s: string, width: nat): (f: seq<byte>)
    requires AllPlain(s) && |s| <= width
    ensures |f| == width
  {
    seq(width, i requires 0 <= i < width => if i < |s| then UpperChar(s[i]) as int as byte else SPACE)
  }

  /** What `encode_short_name_8_3` answers. */
  function Encode(name: string): Result<RawName> {
    var base, ext := BaseOf(name), ExtOf(name);
    if |base| == 0 || |base| > 8 || |ext| > 3 then Err(InvalidName)
    else if '.' in base || '.' in ext then Err(InvalidName)
    else if !AllPlain(base) || !AllPlain(ext) then Err(InvalidName)
    else Ok(Field(base, 8) + Field(ext, 3))
  }

  /** One of the two copy loops of `encode_short_name_8_3`. */
  method EncodeField(s: string, width: nat) returns (r: Result<seq<byte>>)
    requires |s| <= width
    ensures r == if AllPlain(s) then Ok(Field(s, width)) else Err(InvalidName)
  {
    var f := new byte[width](_ => SPACE);
    for i := 0 to |s|
      invariant AllPlain(s[..i])
      invariant forall k :: 0 <= k < width ==> f[k] == if k < i then UpperChar(s[k]) as int as byte else SPACE
    {
      if !Plain(s[i]) {
        return Err(InvalidName);
      }
      f[i] := UpperChar(s[i]) as int as byte;
    }
    assert s[..|s|] == s;
    assert f[..] == Field(s, width);
    return Ok(f[..]);
  }

  method EncodeShortName83(name: string) returns (r: Result<RawName>)
    ensures r == Encode(name)
  {
    var base, ext := name, "";
    var dot := LastIndexOf(name, '.');
    if dot.Some? {
      base, ext := name[..dot.value], name[dot.value + 1..];
    }
    if |base| == 0 || |base| > 8 || |ext| > 3 {
      return Err(InvalidName);
    }
    if '.' in base || '.' in ext {
      return Err(InvalidName);
    }
    var n :- EncodeField(base, 8);
    var e :- EncodeField(ext, 3);
    return Ok(n + e);
  }

  // ---------- decoding ----------

  /** `bytes` without its trailing spaces. */
  function TrimEnd(bytes: seq<byte>): (t: seq<byte>)
    ensures t <= bytes
    ensures t == [] || t[|t| - 1] != SPACE
    ensures forall k :: |t| <= k < |bytes| ==> bytes[k] == SPACE
  {
    if bytes != [] && bytes[|bytes| - 1] == SPACE then TrimEnd(bytes[..|bytes| - 1]) else bytes
  }

  function Chars(bytes: seq<byte>): (s: string)
    ensures |s| == |bytes|
  {
    seq(|bytes|, i requires 0 <= i < |bytes| => bytes[i] as int as char)
  }

  /** The trimmed prefix is the only one with these two properties. */
  lemma TrimEndUnique(bytes: seq<byte>, n: nat)
    requires n <= |bytes|
    requires n == 0 || bytes[n - 1] != SPACE
    requires forall k :: n <= k < |bytes| ==> bytes[k] == SPACE
    ensures TrimEnd(bytes) == bytes[..n]
  {
    var t := TrimEnd(bytes);
    assert t == bytes[..|t|];
    assert |t| == n;
  }

  /** `decode_ascii_trim`. */
  method DecodeAsciiTrim(bytes: seq<byte>) returns (s: string)
    ensures s == Chars(TrimEnd(bytes))
  {
    var end := |bytes|;
    while end > 0 && bytes[end - 1] == SPACE
      invariant 0 <= end <= |bytes|
      invariant forall k :: end <= k < |bytes| ==> bytes[k] == SPACE
    {
      end := end - 1;
    }
    TrimEndUnique(bytes, end);
    s := "";
    for i := 0 to end
      invariant s == Chars(bytes[..end])[..i]
    {
      s := s + [bytes[i] as int as char];
    }
  }

  /** The name `DirEntry::parse` rebuilds from a raw name. */
  function Decode(raw: RawName): string {
    var name, ext := Chars(TrimEnd(raw[..8])), Chars(TrimEnd(raw[8..]));
    if ext != "" then name + "." + ext else name
  }

  // ---------- the two directions meet ----------

  /** No trailing dot, and no trailing space in the base or the extension. */
  predicate Readable(name: string) {
    var base, ext := BaseOf(name), ExtOf(name);
    && (base != "" ==> base[|base| - 1] != ' ')
    && (ext != "" ==> ext[|ext| - 1] != ' ')
    && (ext == "" ==> '.' !in name)
  }

  lemma UpperOfSplit(name: string)
    ensures '.' in name ==> Upper(name) == Upper(BaseOf(name)) + "." + Upper(ExtOf(name))
    ensures '.' !in name ==> name == BaseOf(name) && ExtOf(name) == ""
  {
    if '.' in name {
      var base, ext := BaseOf(name), ExtOf(name);
      assert name == base + "." + ext;
      hide BaseOf, ExtOf, LastIndexOf;
      UpperConcat(base, "." + ext);
      UpperConcat(".", ext);
      assert Upper(".") == ".";
    }
  }

  lemma UpperConcat(s: string, t: string)
    ensures Upper(s + t) == Upper(s) + Upper(t)
  {
  }

  /** A padded field trims back to the upper-cased text, exactly when that text ends in no space. */
  lemma FieldTrim(s: string, width: nat)
    requires AllPlain(s) && |s| <= width
    ensures |TrimEnd(Field(s, width))| <= |s|
    ensures (s == "" || s[|s| - 1] != ' ') ==> Chars(TrimEnd(Field(s, width))) == Upper(s)
    ensures s != "" && s[|s| - 1] == ' ' ==> |TrimEnd(Field(s, width))| < |s|
  {
    var f := Field(s, width);
    var t := TrimEnd(f);
    assert t == f[..|t|];
    if s == "" || s[|s| - 1] != ' ' {
      TrimEndUnique(f, |s|);
      assert t == f[..|s|];
      assert Chars(t) == Upper(s);
    }
  }

  /** Decoding an accepted name gives the name back, upper-cased, exactly when it is readable. */
  lemma NameRoundTrip(name: string)
    requires Encode(name).Ok?
    ensures Decode(Encode(name).value) == Upper(name) <==> Readable(name)
  {
    hide Field, TrimEnd, Chars, Upper, LastIndexOf;
    var base, ext := BaseOf(name), ExtOf(name);
    var raw := Encode(name).value;
    assert raw[..8] == Field(base, 8) && raw[8..] == Field(ext, 3);
    FieldTrim(base, 8);
    FieldTrim(ext, 3);
    UpperOfSplit(name);
  }

  lemma LastIndexUnique(s: string, c: char, i: nat)
    requires i < |s| && s[i] == c && c !in s[i + 1..]
    ensures LastIndexOf(s, c) == Some(i)
  {
    if i < |s| - 1 {
      var last := s[i + 1..][|s| - i - 2];
      assert last == s[|s| - 1] && last in s[i + 1..];
      var t := s[..|s| - 1];
      assert t[i + 1..] <= s[i + 1..];
      LastIndexUnique(t, c, i);
    }
  }

  lemma UpperLastDot(name: string)
    ensures LastIndexOf(Upper(name), '.') == LastIndexOf(name, '.')
  {
    var u := Upper(name);
    match LastIndexOf(name, '.')
    case None =>
      assert '.' !in u;
    case Some(dot) =>
      assert u[dot] == '.';
      assert '.' !in u[dot + 1..] by {
        assert forall i :: dot + 1 <= i < |u| ==> name[i] == name[dot + 1..][i - dot - 1];
      }
      LastIndexUnique(u, '.', dot);
  }

  lemma UpperSlice(name: string, i: nat, j: nat)
    requires i <= j <= |name|
    ensures Upper(name)[i..j] == Upper(name[i..j])
  {
  }

  /** Upper-casing moves no dot. */
  lemma UpperSplit(name: string)
    ensures LastIndexOf(Upper(name), '.') == LastIndexOf(name, '.')
    ensures BaseOf(Upper(name)) == Upper(BaseOf(name)) && ExtOf(Upper(name)) == Upper(ExtOf(name))
  {
    UpperLastDot(name);
    match LastIndexOf(name, '.')
    case None =>
    case Some(dot) =>
      UpperSlice(name, 0, dot);
      UpperSlice(name, dot + 1, |name|);
      hide Upper, LastIndexOf;
      assert name[..dot] == name[0..dot] && name[dot + 1..] == name[dot + 1..|name|];
  }

  /** Names that differ only in case are encoded alike. */
  lemma EncodeIgnoresCase(a: string, b: string)
    requires Encode(a).Ok? && Encode(b).Ok? && Upper(a) == Upper(b)
    ensures Encode(a) == Encode(b)
  {
    UpperSplit(a);
    UpperSplit(b);
    FieldIgnoresCase(BaseOf(a), BaseOf(b), 8);
    FieldIgnoresCase(ExtOf(a), ExtOf(b), 3);
  }

  lemma FieldIgnoresCase(s: string, t: string, width: nat)
    requires AllPlain(s) && AllPlain(t) && |s| <= width && |t| <= width && Upper(s) == Upper(t)
    ensures Field(s, width) == Field(t, width)
  {
    assert |s| == |Upper(s)| == |Upper(t)| == |t|;
    forall i | 0 <= i < |s| ensures UpperChar(s[i]) == UpperChar(t[i]) {
      assert Upper(s)[i] == Upper(t)[i];
    }
  }

  /** Readable accepted names share an encoding exactly when they are equal up to case. */
  lemma EncodeInjective(a: string, b: string)
    requires Encode(a).Ok? && Encode(b).Ok? && Readable(a) && Readable(b)
    ensures Encode(a) == Encode(b) <==> Upper(a) == Upper(b)
  {
    NameRoundTrip(a);
    NameRoundTrip(b);
    if Upper(a) == Upper(b) { EncodeIgnoresCase(a, b); }
  }

  // ---------- raw names found on disk ----------

  /** No lower-case letter and no dot among the raw bytes. */
  predicate Clean(raw: RawName) {
    forall i :: 0 <= i < 11 ==> raw[i] != DOT && !(0x61 <= raw[i] <= 0x7A)
  }

  const DOT_ENTRY: RawName := [DOT, SPACE, SPACE, SPACE, SPACE, SPACE, SPACE, SPACE, SPACE, SPACE, SPACE]
  const DOTDOT_ENTRY: RawName := [DOT, DOT, SPACE, SPACE, SPACE, SPACE, SPACE, SPACE, SPACE, SPACE, SPACE]

  lemma EncodedIsClean(name: string)
    requires Encode(name).Ok?
    ensures Clean(Encode(name).value)
  {
    var base, ext := BaseOf(name), ExtOf(name);
    var raw := Encode(name).value;
    forall i | 0 <= i < 11 ensures raw[i] != DOT && !(0x61 <= raw[i] <= 0x7A) {
      if i < |base| {
        assert raw[i] == UpperChar(base[i]) as int;
        assert base[i] != '.';
      } else if 8 <= i < 8 + |ext| {
        assert raw[i] == UpperChar(ext[i - 8]) as int;
        assert ext[i - 8] != '.';
      }
    }
  }

  /** Trimmed text and width determine a field. */
  lemma TrimInjective(f: seq<byte>, g: seq<byte>)
    requires |f| == |g| && TrimEnd(f) == TrimEnd(g)
    ensures f == g
  {
    var t := TrimEnd(f);
    forall i | 0 <= i < |f| ensures f[i] == g[i] {
      if i < |t| { assert f[i] == t[i] == g[i]; }
    }
  }

  lemma CharsInjective(a: seq<byte>, b: seq<byte>)
    requires Chars(a) == Chars(b)
    ensures a == b
  {
    assert |a| == |Chars(a)| == |b|;
    forall i | 0 <= i < |a| ensures a[i] == b[i] {
      assert Chars(a)[i] == Chars(b)[i];
    }
  }

  lemma CleanHasNoDot(bytes: seq<byte>)
    requires forall i :: 0 <= i < |bytes| ==> bytes[i] != DOT
    ensures '.' !in Chars(TrimEnd(bytes))
  {
    var t := TrimEnd(bytes);
    forall i | 0 <= i < |t| ensures Chars(t)[i] != '.' {
      assert t[i] == bytes[i];
    }
  }

  lemma DotMarksExtension(raw: RawName)
    requires Clean(raw)
    ensures '.' !in Chars(TrimEnd(raw[..8]))
    ensures '.' in Decode(raw) <==> Chars(TrimEnd(raw[8..])) != ""
  {
    CleanHasNoDot(raw[..8]);
    var b, e := Chars(TrimEnd(raw[..8])), Chars(TrimEnd(raw[8..]));
    if e != "" {
      assert (b + "." + e)[|b|] == '.';
    }
  }

  /** Two dotted texts with dot-free halves are equal only piecewise. */
  lemma DottedInjective(a: string, x: string, b: string, y: string)
    requires '.' !in a && '.' !in b && a + "." + x == b + "." + y
    ensures a == b && x == y
  {
    var s, t := a + "." + x, b + "." + y;
    assert s[|a|] == '.' && t[|b|] == '.';
    assert forall i :: 0 <= i < |a| ==> s[i] == a[i] && a[i] in a;
    assert forall i :: 0 <= i < |b| ==> t[i] == b[i] && b[i] in b;
    assert a == s[..|a|] && b == t[..|b|];
    assert x == s[|a| + 1..] && y == t[|b| + 1..];
  }

  /** Decoding is injective on clean raw names. */
  lemma DecodeInjective(r: RawName, q: RawName)
    requires Clean(r) && Clean(q) && Decode(r) == Decode(q)
    ensures r == q
  {
    var rb, re := Chars(TrimEnd(r[..8])), Chars(TrimEnd(r[8..]));
    var qb, qe := Chars(TrimEnd(q[..8])), Chars(TrimEnd(q[8..]));
    DotMarksExtension(r);
    DotMarksExtension(q);
    if re != "" {
      DottedInjective(rb, re, qb, qe);
    }
    CharsInjective(TrimEnd(r[..8]), TrimEnd(q[..8]));
    CharsInjective(TrimEnd(r[8..]), TrimEnd(q[8..]));
    TrimInjective(r[..8], q[..8]);
    TrimInjective(r[8..], q[8..]);
    assert r == r[..8] + r[8..] && q == q[..8] + q[8..];
  }

  lemma UpperOfClean(raw: RawName)
    requires Clean(raw)
    ensures Upper(Decode(raw)) == Decode(raw)
  {
    var d := Decode(raw);
    var b, e := TrimEnd(raw[..8]), TrimEnd(raw[8..]);
    forall i | 0 <= i < |d| ensures UpperChar(d[i]) == d[i] {
      if i < |b| {
        assert d[i] == raw[i] as int as char;
      } else if i > |b| {
        assert d[i] == raw[8 + (i - |b| - 1)] as int as char;
      }
    }
  }

  /** The byte comparison of the write path and the name comparison of the read path agree. */
  lemma LookupsAgree(raw: RawName, name: string)
    requires Clean(raw) && Encode(name).Ok? && Readable(name)
    ensures raw == Encode(name).value <==> Upper(Decode(raw)) == Upper(name)
  {
    UpperOfClean(raw);
    EncodedIsClean(name);
    NameRoundTrip(name);
    if Upper(Decode(raw)) == Upper(name) {
      DecodeInjective(raw, Encode(name).value);
    }
  }
}

/** The short-name rules, character by character: which names are accepted, as which bytes, and how bytes read back. */
module NameRules {
  import opened Wrappers
  import opened Bytes
  import opened Names

  // ---------- case ----------

  /** The 26 small letters become the 26 capitals; every other character stays. */
  lemma UpperCharIs(c: char, k: nat)
    ensures k < 26 && c as int == 97 + k ==> UpperChar(c) as int == 65 + k
    ensures c as int < 97 || 122 < c as int ==> UpperChar(c) == c
  {
  }

  lemma UpperIs(s: string)
    ensures |Upper(s)| == |s|
    ensures forall i :: 0 <= i < |s| ==> Upper(s)[i] as int == AsciiUpper(s[i] as int)
  {
    forall i | 0 <= i < |s| ensures Upper(s)[i] as int == AsciiUpper(s[i] as int) {
      UpperCharIs(s[i], if 97 <= s[i] as int <= 122 then s[i] as int - 97 else 0);
    }
  }

  /** `to_ascii_uppercase`, on character codes. */
  function AsciiUpper(c: int): int {
    if 97 <= c <= 122 then c - 32 else c
  }

  // ---------- acceptance ----------

  /** ASCII, no slash (47) and no dot (46). */
  predicate PieceOk(s: string) {
    forall i :: 0 <= i < |s| ==> s[i] as int < 128 && s[i] as int != 47 && s[i] as int != 46
  }

  /** `name` is the base `b` alone, or `b`, a dot and the extension `x`. */
  predicate Pieces(name: string, b: string, x: string) {
    && PieceOk(b) && PieceOk(x)
    && (name == b + "." + x || (name == b && x == ""))
  }

  predicate LengthsOk(b: string, x: string) {
    1 <= |b| <= 8 && |x| <= 3
  }

  /** The 11 bytes: each piece upper-cased and padded with 0x20 to its width. */
  predicate Spells(raw: RawName, b: string, x: string) {
    && (forall i :: 0 <= i < 8 ==> raw[i] == if i < |b| then AsciiUpper(b[i] as int) else 0x20)
    && (forall i :: 8 <= i < 11 ==> raw[i] == if i - 8 < |x| then AsciiUpper(x[i - 8] as int) else 0x20)
  }

  lemma PieceHasNoDot(s: string)
    requires PieceOk(s)
    ensures '.' !in s && AllPlain(s)
  {
    assert '.' as int == 46 && '/' as int == 47;
  }

  /** The last dot of a name in pieces is the one between them. */
  lemma SplitPieces(name: string, b: string, x: string)
    requires Pieces(name, b, x)
    ensures BaseOf(name) == b && ExtOf(name) == x
  {
    PieceHasNoDot(b);
    PieceHasNoDot(x);
    if name == b + "." + x {
      assert name[|b|] == '.' && name[|b| + 1..] == x && name[..|b|] == b;
      LastIndexUnique(name, '.', |b|);
    }
  }

  lemma FieldIs(s: string, width: nat, i: nat)
    requires AllPlain(s) && |s| <= width && i < width
    ensures Field(s, width)[i] == if i < |s| then AsciiUpper(s[i] as int) else 0x20
  {
    if i < |s| { UpperCharIs(s[i], if 97 <= s[i] as int <= 122 then s[i] as int - 97 else 0); }
  }

  /** A name in pieces is accepted exactly when the base has 1 to 8 characters and the extension at most 3; then its
      bytes are the pieces, upper-cased and padded. */
  lemma EncodePieces(name: string, b: string, x: string)
    requires Pieces(name, b, x)
    ensures Encode(name).Ok? <==> LengthsOk(b, x)
    ensures Encode(name).Ok? ==> Spells(Encode(name).value, b, x)
  {
    SplitPieces(name, b, x);
    PieceHasNoDot(b);
    PieceHasNoDot(x);
    if LengthsOk(b, x) {
      forall i | 0 <= i < 8 ensures Encode(name).value[i] == if i < |b| then AsciiUpper(b[i] as int) else 0x20 {
        FieldIs(b, 8, i);
      }
      forall i | 8 <= i < 11
        ensures Encode(name).value[i] == if i - 8 < |x| then AsciiUpper(x[i - 8] as int) else 0x20
      {
        FieldIs(x, 3, i - 8);
      }
    }
  }

  lemma PlainIsPiece(s: string)
    requires AllPlain(s) && '.' !in s
    ensures PieceOk(s)
  {
    assert '.' as int == 46 && '/' as int == 47;
    forall i | 0 <= i < |s| ensures s[i] as int < 128 && s[i] as int != 47 && s[i] as int != 46 {
      assert Plain(s[i]) && s[i] in s;
    }
  }

  /** Every other string is refused, and every refusal is InvalidName. */
  lemma EncodeOthers(name: string)
    ensures Encode(name).Ok? ==> Pieces(name, BaseOf(name), ExtOf(name))
    ensures Encode(name).Err? ==> Encode(name) == Err(InvalidName)
  {
    if Encode(name).Ok? {
      PlainIsPiece(BaseOf(name));
      PlainIsPiece(ExtOf(name));
      LastDot(name);
    }
  }

  lemma LastDot(name: string)
    ensures name == BaseOf(name) + "." + ExtOf(name) || (name == BaseOf(name) && ExtOf(name) == "")
  {
    match LastIndexOf(name, '.')
    case None =>
    case Some(i) => assert name == name[..i] + "." + name[i + 1..];
  }

  /** In one sentence: a name is encoded as `raw` exactly when it falls into pieces of these lengths that `raw`
      spells. */
  lemma EncodeIff(name: string, raw: RawName)
    ensures Encode(name) == Ok(raw) <==> exists b, x :: Pieces(name, b, x) && LengthsOk(b, x) && Spells(raw, b, x)
  {
    EncodeOthers(name);
    if Encode(name).Ok? { EncodePieces(name, BaseOf(name), ExtOf(name)); }
    if b, x :| Pieces(name, b, x) && LengthsOk(b, x) && Spells(raw, b, x) {
      EncodePieces(name, b, x);
      SpellsOne(raw, Encode(name).value, b, x);
    }
  }

  lemma SpellsOne(r: RawName, q: RawName, b: string, x: string)
    requires Spells(r, b, x) && Spells(q, b, x)
    ensures r == q
  {
    forall i | 0 <= i < 11 ensures r[i] == q[i] {
    }
  }

  // ---------- reading back ----------

  /** Text that fills the first bytes of a field, the rest being 0x20. */
  predicate Fills(field: seq<byte>, s: string) {
    && |s| <= |field| && (s != "" ==> s[|s| - 1] as int != 0x20)
    && (forall i :: 0 <= i < |s| ==> s[i] as int == field[i])
    && forall i :: |s| <= i < |field| ==> field[i] == 0x20
  }

  lemma FillsTrim(field: seq<byte>, s: string)
    requires Fills(field, s)
    ensures Chars(TrimEnd(field)) == s
  {
    TrimEndUnique(field, |s|);
    assert Chars(field[..|s|]) == s;
  }

  /** The name read from 11 bytes: base and extension without the padding, with a dot between them if there is an
      extension. */
  lemma DecodeIs(raw: RawName, b: string, x: string)
    requires Fills(raw[..8], b) && Fills(raw[8..], x)
    ensures Decode(raw) == if x == "" then b else b + "." + x
  {
    FillsTrim(raw[..8], b);
    FillsTrim(raw[8..], x);
  }
}

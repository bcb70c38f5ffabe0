/** Bytes, little-endian words and in-place copies on a flat buffer. */
module Bytes {

  type byte = x: int | 0 <= x < 256

  const U16: nat := 0x1_0000
  const U32: nat := 0x1_0000_0000

  /** `u16::from_le_bytes` at an offset. */
  function Le16(d: seq<byte>, off: nat): (v: nat)
    requires off + 2 <= |d|
    ensures v < U16
  {
    d[off] as int + 256 * (d[off + 1] as int)
  }

  /** `u32::from_le_bytes` at an offset. */
  function Le32(d: seq<byte>, off: nat): (v: nat)
    requires off + 4 <= |d|
    ensures v < U32
  {
    d[off] as int + 256 * (d[off + 1] as int)
    + 0x1_0000 * (d[off + 2] as int) + 0x100_0000 * (d[off + 3] as int)
  }

  /** `u16::to_le_bytes`. */
  function ToLe16(v: nat): (s: seq<byte>)
    requires v < U16
    ensures |s| == 2 && Le16(s, 0) == v
  {
    [v % 256, v / 256]
  }

  /** `u32::to_le_bytes`. */
  function ToLe32(v: nat): (s: seq<byte>)
    requires v < U32
    ensures |s| == 4 && Le32(s, 0) == v
  {
    var q := v / 256;
    var p := q / 256;
    [v % 256, q % 256, p % 256, p / 256]
  }

  function Zeros(n: nat): (s: seq<byte>)
    ensures |s| == n
  {
    seq(n, _ => 0)
  }

  /** The buffer `d` with `bytes` laid over it at `off`. */
  function Splice(d: seq<byte>, off: nat, bytes: seq<byte>): (r: seq<byte>)
    requires off + |bytes| <= |d|
    ensures |r| == |d|
    ensures forall k :: 0 <= k < |d| ==> r[k] == if off <= k < off + |bytes| then bytes[k - off] else d[k]
    ensures r[off..off + |bytes|] == bytes
  {
    d[..off] + bytes + d[off + |bytes|..]
  }

  /** `dst[off..off + src.len()].copy_from_slice(src)`. */
  method CopyInto(dst: array<byte>, off: nat, src: seq<byte>)
    requires off + |src| <= dst.Length
    modifies dst
    ensures dst[..] == Splice(old(dst[..]), off, src)
  {
    for i := 0 to |src|
      invariant dst[..] == Splice(old(dst[..]), off, src[..i])
    {
      dst[off + i] := src[i];
    }
    assert src[..|src|] == src;
  }
}

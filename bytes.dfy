/** Fixed-width unsigned integers and the few routines of Go's `bytes` and
    `encoding/binary` packages that the codec relies on. */
module Bytes {

  newtype byte = x: int | 0 <= x < 0x100
  newtype uint16 = x: int | 0 <= x < 0x1_0000
  newtype uint32 = x: int | 0 <= x < 0x1_0000_0000
  newtype uint64 = x: int | 0 <= x < 0x1_0000_0000_0000_0000

  /** 256^width: the number of values a little-endian field of `width` bytes can hold. */
  function Pow256(width: nat): (r: nat)
    ensures r >= 1
  {
    if width == 0 then 1 else 256 * Pow256(width - 1)
  }

  /** `x` as `width` little-endian bytes (`binary.LittleEndian.PutUintNN`);
      bits beyond the width are dropped. */
  function LittleEndian(x: nat, width: nat): (r: seq<byte>)
    ensures |r| == width
  {
    if width == 0 then [] else [(x % 256) as byte] + LittleEndian(x / 256, width - 1)
  }

  /** The unsigned value of little-endian bytes (`binary.LittleEndian.UintNN`). */
  function FromLittleEndian(b: seq<byte>): (r: nat)
    ensures r < Pow256(|b|)
  {
    if b == [] then 0 else b[0] as nat + 256 * FromLittleEndian(b[1..])
  }

  /** Decoding undoes encoding for every value that fits the width. */
  lemma {:induction false} LittleEndianRoundTrip(x: nat, width: nat)
    requires x < Pow256(width)
    ensures FromLittleEndian(LittleEndian(x, width)) == x
  {
    if width > 0 {
      LittleEndianRoundTrip(x / 256, width - 1);
      assert LittleEndian(x, width)[1..] == LittleEndian(x / 256, width - 1);
    }
  }

  /** Encoding undoes decoding: a little-endian byte run is determined by its value. */
  lemma {:induction false} FromLittleEndianRoundTrip(b: seq<byte>)
    ensures LittleEndian(FromLittleEndian(b), |b|) == b
  {
    if b != [] {
      FromLittleEndianRoundTrip(b[1..]);
      var x := FromLittleEndian(b);
      assert x % 256 == b[0] as nat && x / 256 == FromLittleEndian(b[1..]);
    }
  }

  /** `bytes.IndexByte(s, c)`: the index of the first `c` in `s`, or -1. */
  function IndexByte(s: seq<byte>, c: byte): (r: int)
    ensures -1 <= r < |s|
    ensures r == -1 <==> c !in s
    ensures 0 <= r ==> s[r] == c && c !in s[..r]
  {
    if s == [] then -1
    else if s[0] == c then 0
    else
      var k := IndexByte(s[1..], c);
      assert s[1..][..if k < 0 then 0 else k] == s[1..if k < 0 then 1 else k + 1];
      if k < 0 then -1 else k + 1
  }

  /** A `00 00` pair starts at offset `i` of `s`. */
  predicate IsNullPair(s: seq<byte>, i: int) {
    0 <= i && i + 1 < |s| && s[i] == 0 && s[i + 1] == 0
  }

  /** `bytes.Index(s, []byte{0, 0})`: the first offset, odd or even, at which a
      `00 00` pair starts, or -1. */
  function IndexNullPair(s: seq<byte>): (r: int)
    ensures -1 <= r
    ensures r == -1 ==> forall i :: 0 <= i < |s| ==> !IsNullPair(s, i)
    ensures 0 <= r ==> IsNullPair(s, r) && forall i :: 0 <= i < r ==> !IsNullPair(s, i)
  {
    if |s| < 2 then -1
    else if s[0] == 0 && s[1] == 0 then 0
    else
      var k := IndexNullPair(s[1..]);
      assert forall i :: 1 <= i < |s| ==> (IsNullPair(s, i) <==> IsNullPair(s[1..], i - 1));
      if k < 0 then -1 else k + 1
  }
}

/** Null-terminated ASCII and UTF-16LE strings (efiwriter/string.go). */
module Strings {
  import opened Bytes
  import opened Streams

  // ---------------------------------------------------------------------
  // ASCII, terminated by one zero byte

  /** The bytes `WriteASCIINullBytes` emits: `input` up to and including its
      first zero byte, or all of `input` and a zero it adds. */
  function AsciiZBytes(input: seq<byte>): (r: seq<byte>)
    ensures 1 <= |r| <= |input| + 1
    ensures r == (input + [0])[..|r|]
    ensures r[|r| - 1] == 0 && 0 !in r[..|r| - 1]
  {
    var k := IndexByte(input, 0);
    assert input + [0] == input + [0];
    if k < 0 then
      assert input + [0] == (input + [0])[..|input| + 1];
      input + [0]
    else
      assert input[..k + 1] == (input + [0])[..k + 1];
      input[..k + 1]
  }

  /** `LengthASCIINullBytes`: the encoded length of `input` as an ASCII-Z string. */
  function LengthASCIINullBytes(input: seq<byte>): (r: int)
    ensures 1 <= r <= |input| + 1
    ensures 0 !in input[..r - 1] && (r <= |input| ==> input[r - 1] == 0)
    ensures r == |AsciiZBytes(input)|
  {
    var nullIndex := IndexByte(input, 0);
    if nullIndex < 0 then |input| + 1 else nullIndex + 1
  }

  /** The unterminated case of both writers: the input, then the terminator
      only if the input went through. */
  method WriteTerminated(w: Sink, input: seq<byte>, terminator: seq<byte>) returns (n: int, err: Status)
    requires w.Valid()
    modifies w
    ensures w.Valid()
    ensures w.data == Clip(old(w.data) + (input + terminator), w.capacity)
    ensures n == |w.data| - |old(w.data)|
    ensures err.Ok? <==> |old(w.data)| + |input| + |terminator| <= w.capacity
    ensures err.Failed? ==> err.error == ShortWrite
    ensures |old(w.data)| + |input| <= w.capacity ==> w.offered == old(w.offered) + [input, terminator]
    ensures |old(w.data)| + |input| > w.capacity ==> w.offered == old(w.offered) + [input]
  {
    var written: nat;
    written, err := w.Write(input);
    n := written;
    if err.Ok? {
      var tmp: nat;
      tmp, err := w.Write(terminator);
      n := n + tmp;
    } else {
      ClipFull(old(w.data) + input, terminator, w.capacity);
    }
    assert old(w.data) + input + terminator == old(w.data) + (input + terminator);
  }

  /** `WriteASCIINullBytes`: one write when the input holds a zero; otherwise
      the input, and then a zero only if the input went through. */
  method WriteASCIINullBytes(w: Sink, input: seq<byte>) returns (n: int, err: Status)
    requires w.Valid()
    modifies w
    ensures w.Valid()
    ensures w.data == Clip(old(w.data) + AsciiZBytes(input), w.capacity)
    ensures n == |w.data| - |old(w.data)|
    ensures err.Ok? <==> |old(w.data)| + LengthASCIINullBytes(input) <= w.capacity
    ensures err.Ok? ==> w.data == old(w.data) + AsciiZBytes(input) && n == LengthASCIINullBytes(input)
    ensures err.Failed? ==> err.error == ShortWrite
    ensures 0 in input ==> w.offered == old(w.offered) + [AsciiZBytes(input)]
    ensures 0 !in input && |old(w.data)| + |input| <= w.capacity ==> w.offered == old(w.offered) + [input, [0]]
    ensures 0 !in input && |old(w.data)| + |input| > w.capacity ==> w.offered == old(w.offered) + [input]
  {
    var nullIndex := IndexByte(input, 0);
    if nullIndex < 0 {
      assert AsciiZBytes(input) == input + [0];
      n, err := WriteTerminated(w, input, [0]);
    } else {
      assert input[0..nullIndex + 1] == AsciiZBytes(input);
      var written: nat;
      written, err := w.Write(input[0..nullIndex + 1]);
      n := written;
    }
  }

  /** `StringToASCIIZBytes`: a Go string's bytes followed by a zero. */
  function StringToASCIIZBytes(s: seq<byte>): (r: seq<byte>)
    ensures |r| == |s| + 1 && r[..|s|] == s && r[|s|] == 0
    ensures 0 !in s ==> AsciiZBytes(r) == r && LengthASCIINullBytes(r) == |s| + 1
  {
    var r := s + [0];
    assert r[..|s|] == s;
    if 0 !in s then
      assert r[..|r| - 1] == s;
      r
    else
      r
  }

  /** Writing what `AsciiZBytes` produced once more changes nothing. */
  lemma AsciiZIdempotent(input: seq<byte>)
    ensures AsciiZBytes(AsciiZBytes(input)) == AsciiZBytes(input)
  {
    var r := AsciiZBytes(input);
    assert r == (r + [0])[..|r|];
  }

  // ---------------------------------------------------------------------
  // UTF-16LE, terminated by one aligned zero code unit

  /** The least even offset at or after `k` at which a `00 00` pair starts,
      or -1: the first zero code unit of the UTF-16LE text from `k` on. */
  function AlignedNullFrom(s: seq<byte>, k: nat): (r: int)
    requires k % 2 == 0
    ensures r == -1 || (k <= r && r % 2 == 0 && IsNullPair(s, r))
    ensures forall i :: k <= i && i % 2 == 0 && (r == -1 || i < r) ==> !IsNullPair(s, i)
    decreases |s| - k
  {
    if k + 1 >= |s| then -1
    else if s[k] == 0 && s[k + 1] == 0 then k
    else AlignedNullFrom(s, k + 2)
  }

  /** The offset of the aligned UTF-16 terminator of `s`, or -1. */
  function Utf16NullIndex(s: seq<byte>): (r: int)
    ensures r == -1 || (0 <= r && r % 2 == 0 && IsNullPair(s, r))
    ensures (r == -1) <==> forall i :: 0 <= i && i % 2 == 0 ==> !IsNullPair(s, i)
    ensures forall i :: 0 <= i < r && i % 2 == 0 ==> !IsNullPair(s, i)
  {
    AlignedNullFrom(s, 0)
  }

  /** An even offset with a `00 00` pair and none earlier at an even offset
      is the aligned terminator. */
  lemma Utf16NullIndexIs(s: seq<byte>, p: int)
    requires 0 <= p && p % 2 == 0 && IsNullPair(s, p)
    requires forall i :: 0 <= i < p && i % 2 == 0 ==> !IsNullPair(s, i)
    ensures Utf16NullIndex(s) == p
  {
  }

  /** `indexUtf16NullTerminate`: repeatedly looks for the next `00 00` pair
      and stops at the first one that starts at an even offset. The Go loop
      condition `(nullIndex & 1) == 1` is `nullIndex % 2 == 1` here: both
      hold for -1 and for every odd offset. */
  method IndexUtf16NullTerminate(input: seq<byte>) returns (nullIndex: int)
    ensures nullIndex == Utf16NullIndex(input)
  {
    var offset := 0;
    nullIndex := -1;
    while offset < |input| && nullIndex % 2 == 1
      invariant 0 <= offset <= |input|
      invariant nullIndex == -1 ==> offset == 0
      invariant nullIndex != -1 ==> 0 <= nullIndex && offset == nullIndex + 1 && IsNullPair(input, nullIndex)
      invariant forall i :: 0 <= i < nullIndex && i % 2 == 0 ==> !IsNullPair(input, i)
      decreases |input| - offset
    {
      var found := IndexNullPair(input[offset..]);
      if found < 0 {
        forall i | offset <= i < |input|
          ensures !IsNullPair(input, i)
        {
          assert !IsNullPair(input[offset..], i - offset);
        }
        nullIndex := -1;
        break;
      } else {
        forall i | offset <= i < found + offset
          ensures !IsNullPair(input, i)
        {
          assert !IsNullPair(input[offset..], i - offset);
        }
        assert IsNullPair(input[offset..], found);
        nullIndex := found + offset;
      }
      offset := nullIndex + 1;
    }
  }

  /** The bytes `WriteUTF16NullBytes` emits: `input` up to and including its
      aligned terminator, or all of `input` and a `00 00` it adds. */
  function Utf16ZBytes(input: seq<byte>): (r: seq<byte>)
    ensures 2 <= |r| <= |input| + 2
    ensures r == (input + [0, 0])[..|r|]
    ensures r[|r| - 2] == 0 && r[|r| - 1] == 0
    ensures Utf16NullIndex(input) == -1 <==> |r| == |input| + 2
    ensures Utf16NullIndex(input) >= 0 ==> |r| == Utf16NullIndex(input) + 2
  {
    var k := Utf16NullIndex(input);
    if k < 0 then
      assert input + [0, 0] == (input + [0, 0])[..|input| + 2];
      input + [0, 0]
    else
      assert input[..k + 2] == (input + [0, 0])[..k + 2];
      input[..k + 2]
  }

  /** `LengthUTF16NullBytes`: the encoded length of `input` as a UTF-16 Z string. */
  function LengthUTF16NullBytes(input: seq<byte>): (r: int)
    ensures r == |Utf16ZBytes(input)|
  {
    var nullIndex := Utf16NullIndex(input);
    if nullIndex < 0 then |input| + 2 else nullIndex + 2
  }

  /** `WriteUTF16NullBytes`: one write when the input holds an aligned
      terminator; otherwise the input, and then `00 00` only if the input
      went through. */
  method WriteUTF16NullBytes(w: Sink, input: seq<byte>) returns (n: int, err: Status)
    requires w.Valid()
    modifies w
    ensures w.Valid()
    ensures w.data == Clip(old(w.data) + Utf16ZBytes(input), w.capacity)
    ensures n == |w.data| - |old(w.data)|
    ensures err.Ok? <==> |old(w.data)| + LengthUTF16NullBytes(input) <= w.capacity
    ensures err.Ok? ==> w.data == old(w.data) + Utf16ZBytes(input) && n == LengthUTF16NullBytes(input)
    ensures err.Failed? ==> err.error == ShortWrite
    ensures Utf16NullIndex(input) >= 0 ==> w.offered == old(w.offered) + [Utf16ZBytes(input)]
    ensures Utf16NullIndex(input) < 0 && |old(w.data)| + |input| <= w.capacity ==> w.offered == old(w.offered) + [input, [0, 0]]
    ensures Utf16NullIndex(input) < 0 && |old(w.data)| + |input| > w.capacity ==> w.offered == old(w.offered) + [input]
  {
    var nullIndex := IndexUtf16NullTerminate(input);
    if nullIndex < 0 {
      assert Utf16ZBytes(input) == input + [0, 0];
      n, err := WriteTerminated(w, input, [0, 0]);
    } else {
      assert input[0..nullIndex + 2] == Utf16ZBytes(input);
      var written: nat;
      written, err := w.Write(input[0..nullIndex + 2]);
      n := written;
    }
  }

  /** Writing the output of `WriteUTF16NullBytes` again reproduces it exactly
      when the input had even length or already held a terminator, and only then. */
  lemma Utf16ZIdempotent(input: seq<byte>)
    ensures Utf16ZBytes(Utf16ZBytes(input)) == Utf16ZBytes(input)
        <==> (|input| % 2 == 0 || Utf16NullIndex(input) >= 0)
  {
    var r := Utf16ZBytes(input);
    var k := Utf16NullIndex(input);
    if k >= 0 {
      forall i | 0 <= i < k && i % 2 == 0
        ensures !IsNullPair(r, i)
      {
        assert !IsNullPair(input, i);
      }
      assert IsNullPair(r, k);
      Utf16NullIndexIs(r, k);
      assert r[..k + 2] == r;
    } else if |input| % 2 == 0 {
      forall i | 0 <= i < |input| && i % 2 == 0
        ensures !IsNullPair(r, i)
      {
        assert !IsNullPair(input, i);
      }
      assert IsNullPair(r, |input|);
      Utf16NullIndexIs(r, |input|);
      assert r[..|input| + 2] == r;
    } else {
      var j := Utf16NullIndex(r);
      assert |Utf16ZBytes(r)| != |r|;
    }
  }

  /** The three cases of the writer's tests: a terminated string is kept,
      bytes after the terminator are dropped, a terminator is added. */
  lemma Utf16ZBytesExamples()
    ensures Utf16ZBytes([0x61, 0x00, 0x73, 0x00, 0x64, 0x00, 0x00, 0x00])
         == [0x61, 0x00, 0x73, 0x00, 0x64, 0x00, 0x00, 0x00]
    ensures Utf16ZBytes([0x61, 0x00, 0x73, 0x00, 0x64, 0x00, 0x00, 0x00, 0x01, 0x02])
         == [0x61, 0x00, 0x73, 0x00, 0x64, 0x00, 0x00, 0x00]
    ensures Utf16ZBytes([0x61, 0x00, 0x73, 0x00, 0x64, 0x00])
         == [0x61, 0x00, 0x73, 0x00, 0x64, 0x00, 0x00, 0x00]
  {
    var a: seq<byte> := [0x61, 0x00, 0x73, 0x00, 0x64, 0x00, 0x00, 0x00];
    var b: seq<byte> := [0x61, 0x00, 0x73, 0x00, 0x64, 0x00, 0x00, 0x00, 0x01, 0x02];
    var c: seq<byte> := [0x61, 0x00, 0x73, 0x00, 0x64, 0x00];
    Utf16NullIndexIs(a, 6);
    Utf16NullIndexIs(b, 6);
    assert b[..8] == a;
    assert Utf16NullIndex(c) == -1;
    assert c + [0, 0] == a;
  }

  // ---------------------------------------------------------------------
  // UTF-16 encoding of Unicode text (RFC 2781, section 2.1)

  /** `utf16.EncodeRune` for one scalar value: itself below U+10000, else a
      high and a low surrogate. */
  function EncodeRune(c: char): (r: seq<uint16>)
    ensures 1 <= |r| <= 2
    ensures |r| == 2 <==> c as int >= 0x1_0000
    ensures |r| == 1 ==> r[0] as int == c as int
    ensures |r| == 2 ==> && 0xD800 <= r[0] as int < 0xDC00 && 0xDC00 <= r[1] as int < 0xE000
                         && 0x1_0000 + (r[0] as int - 0xD800) * 0x400 + (r[1] as int - 0xDC00) == c as int
  {
    var v := c as int;
    if v < 0x1_0000 then [v as uint16]
    else
      var w := v - 0x1_0000;
      [(0xD800 + w / 0x400) as uint16, (0xDC00 + w % 0x400) as uint16]
  }

  /** `utf16.Encode([]rune(s))`. */
  function Utf16Encode(s: string): (r: seq<uint16>)
    ensures |s| <= |r| <= 2 * |s|
  {
    if s == "" then [] else EncodeRune(s[0]) + Utf16Encode(s[1..])
  }

  /** `utf16.Decode`, RFC 2781 section 2.2: a surrogate pair is combined, a
      surrogate not in a pair becomes U+FFFD. */
  function Utf16Decode(u: seq<uint16>): string
    decreases |u|
  {
    if u == [] then ""
    else if u[0] < 0xD800 || 0xE000 <= u[0] then [(u[0] as int) as char] + Utf16Decode(u[1..])
    else if u[0] < 0xDC00 && |u| > 1 && 0xDC00 <= u[1] < 0xE000 then
      [(0x1_0000 + (u[0] as int - 0xD800) * 0x400 + (u[1] as int - 0xDC00)) as char] + Utf16Decode(u[2..])
    else ['\U{FFFD}'] + Utf16Decode(u[1..])
  }

  /** Decoding the UTF-16 encoding of a text gives the text back. */
  lemma {:induction false} Utf16RoundTrip(s: string)
    ensures Utf16Decode(Utf16Encode(s)) == s
  {
    if s != "" {
      Utf16RoundTrip(s[1..]);
      var e := EncodeRune(s[0]);
      var rest := Utf16Encode(s[1..]);
      var u := e + rest;
      if |e| == 1 {
        assert u[1..] == rest;
      } else {
        assert u[2..] == rest;
      }
    }
  }

  /** A text without U+0000 encodes to code units none of which is zero. */
  lemma {:induction false} Utf16EncodeNoZero(s: string)
    requires '\0' !in s
    ensures 0 !in Utf16Encode(s)
  {
    if s != "" {
      assert s[1..] <= s[1..] && forall c :: c in s[1..] ==> c in s;
      Utf16EncodeNoZero(s[1..]);
    }
  }

  /** Code units as little-endian byte pairs (`binary.LittleEndian.PutUint16`). */
  function UnitsLittleEndian(units: seq<uint16>): (r: seq<byte>)
    ensures |r| == 2 * |units|
  {
    if units == [] then []
    else UnitsLittleEndian(units[..|units| - 1]) + LittleEndian(units[|units| - 1] as nat, 2)
  }

  /** Byte `2k` of the encoding is the low byte of unit `k`, byte `2k + 1` its high byte. */
  lemma {:induction false} UnitsLittleEndianAt(units: seq<uint16>, k: nat)
    requires k < |units|
    ensures UnitsLittleEndian(units)[2 * k] as int == units[k] as int % 256
    ensures UnitsLittleEndian(units)[2 * k + 1] as int == units[k] as int / 256
    decreases |units|
  {
    var last := |units| - 1;
    var init := UnitsLittleEndian(units[..last]);
    var u := units[last] as nat;
    assert UnitsLittleEndian(units) == init + LittleEndian(u, 2);
    if k < last {
      UnitsLittleEndianAt(units[..last], k);
      assert units[..last][k] == units[k];
    } else {
      assert LittleEndian(u, 2) == [(u % 256) as byte, ((u / 256) % 256) as byte];
    }
  }

  /** Byte pairs read back as little-endian code units. */
  function UnitsFromLittleEndian(b: seq<byte>): (r: seq<uint16>)
    requires |b| % 2 == 0
    ensures |r| == |b| / 2
  {
    seq(|b| / 2, k requires 0 <= k < |b| / 2 => (b[2 * k] as int + 256 * b[2 * k + 1] as int) as uint16)
  }

  /** Reading the byte pairs back gives the code units. */
  lemma UnitsRoundTrip(units: seq<uint16>)
    ensures UnitsFromLittleEndian(UnitsLittleEndian(units)) == units
  {
    var b := UnitsLittleEndian(units);
    forall k | 0 <= k < |units|
      ensures UnitsFromLittleEndian(b)[k] == units[k]
    {
      UnitsLittleEndianAt(units, k);
    }
  }

  /** The bytes `StringToUTF16Bytes(s)` returns. */
  function Utf16Bytes(s: string): seq<byte> {
    UnitsLittleEndian(Utf16Encode(s))
  }

  /** `StringToUTF16Bytes`: fills a buffer of two bytes per code unit. */
  method StringToUTF16Bytes(s: string) returns (output: seq<byte>)
    ensures output == Utf16Bytes(s)
    ensures |output| == 2 * |Utf16Encode(s)|
  {
    var unicode := Utf16Encode(s);
    var buffer := new byte[|unicode| * 2];
    var j := 0;
    for k := 0 to |unicode|
      invariant j == 2 * k
      invariant buffer[..j] == UnitsLittleEndian(unicode[..k])
    {
      var u := unicode[k];
      buffer[j] := (u as int % 256) as byte;
      buffer[j + 1] := (u as int / 256) as byte;
      assert unicode[..k + 1][..k] == unicode[..k];
      assert buffer[..j + 2] == buffer[..j] + LittleEndian(u as nat, 2);
      j := j + 2;
    }
    assert unicode[..|unicode|] == unicode;
    output := buffer[..];
  }

  /** `StringToUTF16ZBytes`: the UTF-16LE bytes and a `00 00` terminator. */
  method StringToUTF16ZBytes(s: string) returns (b: seq<byte>)
    ensures b == Utf16Bytes(s) + [0, 0]
  {
    b := StringToUTF16Bytes(s);
    b := b + [0, 0];
  }

  /** No aligned `00 00` pair inside the encoding of non-zero code units. */
  lemma NoNullPairInUnits(units: seq<uint16>, i: nat)
    requires 0 !in units
    requires i % 2 == 0 && i < 2 * |units|
    ensures !IsNullPair(UnitsLittleEndian(units) + [0, 0], i)
  {
    var b := UnitsLittleEndian(units);
    var k := i / 2;
    UnitsLittleEndianAt(units, k);
    assert units[k] in units;
    assert (b + [0, 0])[i] == b[2 * k] && (b + [0, 0])[i + 1] == b[2 * k + 1];
  }

  /** The terminator `StringToUTF16ZBytes` adds to a text without U+0000 is
      the one the UTF-16 scan finds, so writing the result with
      `WriteUTF16NullBytes` emits it unchanged. */
  lemma Utf16ZOfText(s: string)
    requires '\0' !in s
    ensures Utf16NullIndex(Utf16Bytes(s) + [0, 0]) == |Utf16Bytes(s)|
    ensures Utf16ZBytes(Utf16Bytes(s) + [0, 0]) == Utf16Bytes(s) + [0, 0]
    ensures LengthUTF16NullBytes(Utf16Bytes(s) + [0, 0]) == 2 * |Utf16Encode(s)| + 2
  {
    Utf16EncodeNoZero(s);
    UnitsZ(Utf16Encode(s));
  }

  /** The same for any non-zero code units. */
  lemma UnitsZ(units: seq<uint16>)
    requires 0 !in units
    ensures Utf16NullIndex(UnitsLittleEndian(units) + [0, 0]) == |UnitsLittleEndian(units)|
    ensures Utf16ZBytes(UnitsLittleEndian(units) + [0, 0]) == UnitsLittleEndian(units) + [0, 0]
    ensures LengthUTF16NullBytes(UnitsLittleEndian(units) + [0, 0]) == 2 * |units| + 2
  {
    var z := UnitsLittleEndian(units) + [0, 0];
    UnitsZIndex(units);
    assert z[..|z|] == z;
  }

  /** The appended pair is the first aligned `00 00` after non-zero code units. */
  lemma UnitsZIndex(units: seq<uint16>)
    requires 0 !in units
    ensures Utf16NullIndex(UnitsLittleEndian(units) + [0, 0]) == |UnitsLittleEndian(units)|
  {
    var b := UnitsLittleEndian(units);
    var z := b + [0, 0];
    forall i | 0 <= i < |b| && i % 2 == 0
      ensures !IsNullPair(z, i)
    {
      NoNullPairInUnits(units, i);
    }
    assert IsNullPair(z, |b|);
    Utf16NullIndexIs(z, |b|);
  }

  /** The encodings the writer's tests expect. */
  lemma Utf16BytesExamples()
    ensures Utf16Bytes("test") == [0x74, 0x00, 0x65, 0x00, 0x73, 0x00, 0x74, 0x00]
    ensures Utf16Bytes("asd") + [0, 0] == [0x61, 0x00, 0x73, 0x00, 0x64, 0x00, 0x00, 0x00]
  {
    var t := Utf16Encode("test");
    assert t == [0x74, 0x65, 0x73, 0x74];
    var bt := UnitsLittleEndian(t);
    forall k | 0 <= k < 4
      ensures bt[2 * k] as int == t[k] as int && bt[2 * k + 1] == 0
    {
      UnitsLittleEndianAt(t, k);
    }
    assert bt == [bt[0], bt[1], bt[2], bt[3], bt[4], bt[5], bt[6], bt[7]];
    var a := Utf16Encode("asd");
    assert a == [0x61, 0x73, 0x64];
    var ba := UnitsLittleEndian(a);
    forall k | 0 <= k < 3
      ensures ba[2 * k] as int == a[k] as int && ba[2 * k + 1] == 0
    {
      UnitsLittleEndianAt(a, k);
    }
    assert ba == [ba[0], ba[1], ba[2], ba[3], ba[4], ba[5]];
  }
}

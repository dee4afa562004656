/** The text helpers the device-path renderer calls: hexadecimal
    (`efihex.EncodeToString`), decimal (`fmt`'s `%d` and `%v` of an unsigned
    integer), `strings.Trim` with a one-character cutset and
    `efireader.ASCIIZBytesToString`. */
module Format {
  import opened Bytes

  datatype Option<T> = None | Some(value: T)

  predicate IsDecimalDigit(c: char) {
    '0' <= c <= '9'
  }

  predicate IsHexDigit(c: char) {
    '0' <= c <= '9' || 'A' <= c <= 'F'
  }

  predicate IsDecimal(s: string) {
    forall c :: c in s ==> IsDecimalDigit(c)
  }

  predicate IsHex(s: string) {
    |s| % 2 == 0 && forall c :: c in s ==> IsHexDigit(c)
  }

  // ---------------------------------------------------------------------
  // Hexadecimal

  function HexDigit(v: nat): (c: char)
    requires v < 16
    ensures IsHexDigit(c) && (c == '0' <==> v == 0)
  {
    if v < 10 then ('0' as int + v) as char else ('A' as int + v - 10) as char
  }

  function HexValue(c: char): (v: nat)
    requires IsHexDigit(c)
    ensures v < 16
  {
    if c <= '9' then c as int - '0' as int else c as int - 'A' as int + 10
  }

  /** `efihex.EncodeToString`: two digits per byte, high nibble first. */
  function HexEncode(data: seq<byte>): (r: string)
    ensures |r| == 2 * |data|
    ensures IsHex(r)
  {
    if data == [] then ""
    else [HexDigit(data[0] as nat / 16), HexDigit(data[0] as nat % 16)] + HexEncode(data[1..])
  }

  /** Digit pairs back to bytes. */
  function HexDecode(s: string): (r: seq<byte>)
    requires IsHex(s)
    ensures |r| == |s| / 2
  {
    if s == "" then []
    else
      assert forall c :: c in s[2..] ==> c in s;
      [(16 * HexValue(s[0]) + HexValue(s[1])) as byte] + HexDecode(s[2..])
  }

  /** Hex text determines the bytes it was made from. */
  lemma {:induction false} HexRoundTrip(data: seq<byte>)
    ensures HexDecode(HexEncode(data)) == data
  {
    if data != [] {
      var h := HexEncode(data);
      assert h[2..] == HexEncode(data[1..]);
      HexRoundTrip(data[1..]);
    }
  }

  // ---------------------------------------------------------------------
  // Decimal

  function DecimalDigit(v: nat): (c: char)
    requires v < 10
    ensures IsDecimalDigit(c)
  {
    ('0' as int + v) as char
  }

  /** The number a string of decimal digits denotes. */
  function DecimalValue(s: string): nat
    requires IsDecimal(s)
  {
    if s == "" then 0
    else
      assert forall c :: c in s[..|s| - 1] ==> c in s;
      assert s[|s| - 1] in s;
      10 * DecimalValue(s[..|s| - 1]) + (s[|s| - 1] as int - '0' as int)
  }

  /** `%d` of an unsigned integer: its decimal digits, with no leading zero. */
  function Decimal(n: nat): (r: string)
    ensures |r| >= 1 && IsDecimal(r)
    ensures r[0] == '0' ==> r == "0"
    ensures DecimalValue(r) == n
    decreases n
  {
    if n < 10 then [DecimalDigit(n)]
    else
      var r := Decimal(n / 10) + [DecimalDigit(n % 10)];
      assert r[..|r| - 1] == Decimal(n / 10);
      r
  }

  // ---------------------------------------------------------------------
  // Trimming

  function Repeat(c: char, n: nat): (r: string)
    ensures |r| == n && forall x :: x in r ==> x == c
  {
    seq(n, _ => c)
  }

  /** `strings.TrimLeft(s, string(c))`. */
  function TrimLeft(s: string, c: char): (r: string)
    ensures |r| <= |s| && s == Repeat(c, |s| - |r|) + r
    ensures r == [] || r[0] != c
  {
    if s != [] && s[0] == c then
      var r := TrimLeft(s[1..], c);
      assert s == [c] + s[1..];
      assert [c] + Repeat(c, |s| - 1 - |r|) == Repeat(c, |s| - |r|);
      r
    else
      assert s == [] + s;
      s
  }

  /** `strings.TrimRight(s, string(c))`. */
  function TrimRight(s: string, c: char): (r: string)
    ensures |r| <= |s| && s == r + Repeat(c, |s| - |r|)
    ensures r == [] || r[|r| - 1] != c
  {
    if s != [] && s[|s| - 1] == c then
      var r := TrimRight(s[..|s| - 1], c);
      assert s == s[..|s| - 1] + [c];
      assert Repeat(c, |s| - 1 - |r|) + [c] == Repeat(c, |s| - |r|);
      r
    else
      assert s == s + [];
      s
  }

  /** `strings.Trim(s, string(c))`: `s` without its leading and trailing
      run of `c`. */
  function Trim(s: string, c: char): (r: string)
    ensures r == [] || (r[0] != c && r[|r| - 1] != c)
    ensures exists lead: nat, trail: nat :: s == Repeat(c, lead) + r + Repeat(c, trail)
  {
    var left := TrimLeft(s, c);
    var r := TrimRight(left, c);
    assert r != [] ==> r[0] == left[0];
    assert s == Repeat(c, |s| - |left|) + r + Repeat(c, |left| - |r|);
    r
  }

  // ---------------------------------------------------------------------
  // ASCII-Z bytes as text

  /** A byte as the character with the same code. */
  function ByteChar(b: byte): char {
    (b as int) as char
  }

  /** `efireader.ASCIIZBytesToString`: the bytes before the first zero, as text. */
  function AsciiZToString(data: seq<byte>): (r: string)
    ensures |r| <= |data|
    ensures forall i :: 0 <= i < |r| ==> data[i] != 0 && r[i] == ByteChar(data[i])
    ensures |r| < |data| ==> data[|r|] == 0
  {
    var k := IndexByte(data, 0);
    var text := if k < 0 then data else data[..k];
    seq(|text|, i requires 0 <= i < |text| => ByteChar(text[i]))
  }

  /** `strings.IndexByte(s, c)` on text. */
  function IndexOf(s: string, c: char): (r: int)
    ensures -1 <= r < |s|
    ensures r == -1 <==> c !in s
    ensures 0 <= r ==> s[r] == c && c !in s[..r]
  {
    if s == [] then -1
    else if s[0] == c then 0
    else
      var k := IndexOf(s[1..], c);
      assert s[1..][..if k < 0 then 0 else k] == s[1..if k < 0 then 1 else k + 1];
      if k < 0 then -1 else k + 1
  }

  /** The first `c` is at `p` when `s[p]` is `c` and no earlier character is. */
  lemma IndexOfIs(s: string, c: char, p: nat)
    requires p < |s| && s[p] == c && c !in s[..p]
    ensures IndexOf(s, c) == p
  {
  }
}

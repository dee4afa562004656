/** The two device-path nodes that need no decoding of their own: the
    end-of-path marker, which has no body, and the catch-all node that keeps
    the body of a node it does not recognise as raw bytes. */
module SpecialPath {
  import opened Bytes
  import opened Streams
  import opened Fields
  import opened Format
  import Strings

  /** Device path type of an end-of-path node (section 10.3.1 of the UEFI
      Specification). */
  const EndOfPathType: byte := 0x7F
  /** Device path type of a messaging node. */
  const MessagingType: byte := 0x03

  /** Ends one device path instance; another one follows. */
  const EndSingleSubType: byte := 0x01
  /** Ends the entire device path. */
  const EndEntireSubType: byte := 0xFF

  /** Messaging sub-types the catch-all node still renders by name. */
  const MacSubType: byte := 11
  const UriSubType: byte := 24

  /** Size in bytes of a node's header: type, sub-type and a 16-bit length. */
  const HeadSize: nat := 4

  /** The generic header every device-path node starts with. `length` counts
      the header too. */
  datatype Head = Head(typ: byte, subType: byte, length: uint16) {
    predicate Is(t: byte, st: byte) {
      typ == t && subType == st
    }
  }

  /** Go's `uint16(x)` conversion for a non-negative `x`: it keeps the low
      16 bits. */
  function ToUint16(x: nat): (r: uint16)
    ensures r as int == x % 0x1_0000
    ensures x < 0x1_0000 ==> r as int == x
  {
    (x % 0x1_0000) as uint16
  }

  // ---------------------------------------------------------------------
  // End of path

  class EndOfPath {
    var head: Head

    constructor (head: Head)
      ensures this.head == head
    {
      this.head := head;
    }

    /** An end node has no body: it consumes nothing and cannot fail. */
    method ReadFrom(r: Reader) returns (n: int, err: Status)
      ensures n == 0 && err == Ok
    {
      n, err := 0, Ok;
    }

    /** It writes nothing beyond the header, which its caller writes. */
    method WriteTo(w: Sink) returns (n: int, err: Status)
      ensures n == 0 && err == Ok
    {
      n, err := 0, Ok;
    }

    /** Makes the header that of a node ending the entire path. */
    method UpdateHead() returns (h: Head)
      modifies this
      ensures head == Head(EndOfPathType, EndEntireSubType, HeadSize as uint16)
      ensures h == head
    {
      head := Head(EndOfPathType, EndEntireSubType, HeadSize as uint16);
      h := head;
    }

    /** An end node contributes nothing to the text of a path. */
    function Text(): (r: string)
      ensures r == []
    {
      ""
    }
  }

  // ---------------------------------------------------------------------
  // Unrecognised nodes

  class UnrecognizedDevicePath {
    var head: Head
    var data: seq<byte>

    constructor (head: Head, data: seq<byte>)
      ensures this.head == head && this.data == data
    {
      this.head := head;
      this.data := data;
    }

    /** Takes the whole (already bounded) body as raw bytes. */
    method ReadFrom(r: Reader) returns (n: int, err: Status)
      modifies this, r
      ensures data == old(r.remaining) && r.remaining == []
      ensures head == old(head)
      ensures n == |data| && err == Ok
    {
      data := r.ReadAll();
      n := |data|;
      err := Ok;
    }

    /** Writes the body back verbatim, as one field. */
    method WriteTo(w: Sink) returns (n: int, err: Status)
      requires w.Valid()
      modifies w
      ensures w.Valid()
      ensures w.data == Clip(old(w.data) + data, w.capacity)
      ensures n == |w.data| - |old(w.data)|
      ensures err.Ok? <==> |old(w.data)| + |data| <= w.capacity
      ensures err.Ok? ==> w.data == old(w.data) + data && n == |data|
      ensures err.Failed? ==> err.error == FieldFailed(0, ShortWrite)
      ensures w.offered == old(w.offered) + [data]
    {
      BodyField(data);
      n, err := WriteFields(w, [Raw(data)]);
    }

    /** Recomputes the length field from the body; type and sub-type stay. */
    method UpdateHead() returns (h: Head)
      modifies this
      ensures head == old(head).(length := ToUint16(HeadSize + |data|))
      ensures data == old(data)
      ensures |data| < 0x1_0000 - HeadSize ==> head.length as int == HeadSize + |data|
      ensures h == head
    {
      head := head.(length := ToUint16(HeadSize + |data|));
      h := head;
    }

    /** The node's text. A MAC node shows its trimmed hex and its interface
        type, read with the corrected guard of `MacIfType`; a URI node shows
        its ASCII-Z text; any other node shows a `Path(...)` text from which
        its type, sub-type and body can be read back. */
    function Text(): (r: string)
      reads this
      ensures head.Is(MessagingType, MacSubType) ==>
                r == "MAC(" + MacAddressText(data) + "," + Decimal(MacIfType(data) as nat) + ")"
      ensures head.Is(MessagingType, UriSubType) ==> r == "Uri(" + AsciiZToString(data) + ")"
      ensures !head.Is(MessagingType, MacSubType) && !head.Is(MessagingType, UriSubType) ==>
                ParsePathText(r) == Some(PathFields(head.typ, head.subType, data))
    {
      if head.Is(MessagingType, MacSubType) || head.Is(MessagingType, UriSubType) then
        NodeText(head, data)
      else
        PathTextRoundTrip(head, data);
        NodeText(head, data)
    }
  }

  /** The body of an unrecognised node, as the one field that writes it. */
  lemma BodyField(data: seq<byte>)
    ensures EncodeAll([Raw(data)]) == data && TotalSize([Raw(data)]) == |data|
    ensures [Raw(data)][..0] == [] && [Raw(data)][..1] == [Raw(data)]
    ensures Chunks([Raw(data)]) == Chunks([Raw(data)])[..1] == [data]
  {
    assert Concat(Chunks([Raw(data)])) == Concat([]) + data;
  }

  /** Makes an unrecognised node with header `h` from the rest of the stream. */
  method ParseUnrecognizedDevicePath(r: Reader, h: Head) returns (p: UnrecognizedDevicePath, err: Status)
    modifies r
    ensures fresh(p) && p.head == h && p.data == old(r.remaining)
    ensures r.remaining == [] && err == Ok
  {
    p := new UnrecognizedDevicePath(h, []);
    var n: int;
    n, err := p.ReadFrom(r);
  }

  /** A body parsed into an unrecognised node, given a fresh length and
      written back through an empty sink with room for exactly the body,
      comes out unchanged; the new header keeps the type and
      sub-type, and its length counts header and body. */
  method ReadWriteRoundTrip(h: Head, body: seq<byte>) returns (out: seq<byte>, head: Head)
    ensures out == body
    ensures head == h.(length := ToUint16(HeadSize + |body|))
    ensures |body| < 0x1_0000 - HeadSize ==> head.length as int == HeadSize + |body|
  {
    var r := new Reader(body);
    var p, _ := ParseUnrecognizedDevicePath(r, h);
    head := p.UpdateHead();
    var w := new Sink(|body|);
    var _, _ := p.WriteTo(w);
    out := w.data;
  }

  // ---------------------------------------------------------------------
  // Text

  /** The interface type a MAC node's body carries at offset 32, as the
      renderer evidently intends: zero when the body is too short to hold it. */
  function MacIfType(data: seq<byte>): (r: byte)
    ensures |data| > 32 ==> r == data[32]
    ensures |data| <= 32 ==> r == 0
  {
    if |data| > 32 then data[32] else 0
  }

  /** Reading the interface type may fail when the guard lets an index through. */
  datatype ByteRead = Read(value: byte) | IndexOutOfRange

  /** The interface type as written: the guard admits every body of at least
      32 bytes, but offset 32 exists only in bodies of at least 33. */
  function MacIfTypeAsWritten(data: seq<byte>): (r: ByteRead)
    ensures r == IndexOutOfRange <==> |data| == 32
    ensures r.Read? ==> r.value == MacIfType(data)
  {
    if |data| >= 36 - 4 then
      if 36 - 4 < |data| then Read(data[36 - 4]) else IndexOutOfRange
    else Read(0)
  }

  /** Where the guard as written would index past the end of a 32-byte MAC
      body, the text shows interface type 0. */
  lemma MacTextOfShortBody(head: Head, data: seq<byte>)
    requires head.Is(MessagingType, MacSubType) && |data| == 32
    ensures NodeText(head, data) == "MAC(" + MacAddressText(data) + "," + "0" + ")"
  {
    assert MacIfType(data) == 0;
    assert Decimal(0) == "0";
  }

  /** A 32-byte MAC body is enough to make the renderer index past its end. */
  lemma MacGuardAdmitsShortBody()
    ensures var body := seq(32, _ => 0 as byte); MacIfTypeAsWritten(body) == IndexOutOfRange
  {
  }

  /** The MAC address as shown: the body's hex digits without leading and
      trailing zero digits. */
  function MacAddressText(data: seq<byte>): (r: string)
    ensures r == [] || (r[0] != '0' && r[|r| - 1] != '0')
    ensures exists lead: nat, trail: nat :: HexEncode(data) == Repeat('0', lead) + r + Repeat('0', trail)
  {
    Trim(HexEncode(data), '0')
  }

  /** The text of a node the model does not decode: a MAC address, a URI, or
      the type, sub-type and body in hex. */
  function NodeText(head: Head, data: seq<byte>): string {
    if head.Is(MessagingType, MacSubType) then
      "MAC(" + MacAddressText(data) + "," + Decimal(MacIfType(data) as nat) + ")"
    else if head.Is(MessagingType, UriSubType) then
      "Uri(" + AsciiZToString(data) + ")"
    else
      "Path(" + Decimal(head.typ as nat) + "," + Decimal(head.subType as nat) + "," + HexEncode(data) + ")"
  }

  /** What a generic `Path(...)` text says about a node. */
  datatype PathFields = PathFields(typ: byte, subType: byte, data: seq<byte>)

  /** The text before and after the first comma. */
  datatype Split = Split(before: string, after: string)

  function SplitComma(s: string): Option<Split> {
    var i := IndexOf(s, ',');
    if i < 0 then None else Some(Split(s[..i], s[i + 1..]))
  }

  /** Splitting at the first comma finds the comma that follows a comma-free prefix. */
  lemma SplitCommaOf(a: string, b: string)
    requires ',' !in a
    ensures SplitComma(a + "," + b) == Some(Split(a, b))
  {
    var s := a + "," + b;
    assert s[..|a|] == a && s[|a| + 1..] == b;
    IndexOfIs(s, ',', |a|);
  }

  /** Reads back a `Path(<type>,<sub-type>,<hex>)` text. */
  function ParsePathText(t: string): Option<PathFields> {
    if |t| < 6 || t[..5] != "Path(" || t[|t| - 1] != ')' then None
    else ParsePathFields(t[5..|t| - 1])
  }

  /** Reads back the `<type>,<sub-type>,<hex>` between the parentheses. */
  function ParsePathFields(inner: string): Option<PathFields> {
    match SplitComma(inner)
    case None => None
    case Some(first) =>
      match SplitComma(first.after)
      case None => None
      case Some(second) => ParsePathValues(first.before, second.before, second.after)
  }

  function ParsePathValues(typText: string, subText: string, hex: string): Option<PathFields> {
    if !IsDecimal(typText) || !IsDecimal(subText) || !IsHex(hex) then None
    else
      var typ, sub := DecimalValue(typText), DecimalValue(subText);
      if typ < 0x100 && sub < 0x100 then Some(PathFields(typ as byte, sub as byte, HexDecode(hex)))
      else None
  }

  /** A digit string holds no comma. */
  lemma NoComma(s: string)
    requires IsDecimal(s)
    ensures ',' !in s
  {
  }

  /** A `Path(...)` text is read back field by field. */
  lemma ParsePathTextOf(typText: string, subText: string, hex: string)
    requires ',' !in typText && ',' !in subText
    ensures ParsePathText("Path(" + typText + "," + subText + "," + hex + ")") == ParsePathValues(typText, subText, hex)
  {
    var inner := typText + "," + (subText + "," + hex);
    PathTextGrouping(typText, subText, hex);
    ParsePathTextFrame(inner);
    ParsePathFieldsOf(typText, subText, hex);
  }

  lemma PathTextGrouping(typText: string, subText: string, hex: string)
    ensures "Path(" + typText + "," + subText + "," + hex + ")" == "Path(" + (typText + "," + (subText + "," + hex)) + ")"
  {
  }

  /** The parentheses of a `Path(...)` text are stripped exactly. */
  lemma ParsePathTextFrame(inner: string)
    ensures ParsePathText("Path(" + inner + ")") == ParsePathFields(inner)
  {
    var t := "Path(" + inner + ")";
    assert t[..5] == "Path(" && t[5..|t| - 1] == inner;
  }

  lemma ParsePathFieldsOf(typText: string, subText: string, hex: string)
    requires ',' !in typText && ',' !in subText
    ensures ParsePathFields(typText + "," + (subText + "," + hex)) == ParsePathValues(typText, subText, hex)
  {
    SplitCommaOf(typText, subText + "," + hex);
    SplitCommaOf(subText, hex);
  }

  /** The generic text of a node names its type, its sub-type and its whole body. */
  lemma PathTextRoundTrip(head: Head, data: seq<byte>)
    requires !head.Is(MessagingType, MacSubType) && !head.Is(MessagingType, UriSubType)
    ensures ParsePathText(NodeText(head, data)) == Some(PathFields(head.typ, head.subType, data))
  {
    var d1, d2, hex := Decimal(head.typ as nat), Decimal(head.subType as nat), HexEncode(data);
    NoComma(d1);
    NoComma(d2);
    ParsePathTextOf(d1, d2, hex);
    HexRoundTrip(data);
  }

  /** The URI node shows the text of an ASCII-Z string it was given. */
  lemma UriTextRoundTrip(head: Head, s: seq<byte>)
    requires head.Is(MessagingType, UriSubType) && 0 !in s
    ensures NodeText(head, Strings.StringToASCIIZBytes(s)) == "Uri(" + seq(|s|, i requires 0 <= i < |s| => ByteChar(s[i])) + ")"
  {
    var b := Strings.StringToASCIIZBytes(s);
    assert b[..|s|] == s;
  }

  /** The two texts the load option tests expect of unrecognised nodes. */
  lemma PathTextExamples()
    ensures NodeText(Head(128, 1, 9), [0x01, 0x23, 0x45, 0x67, 0x89]) == "Path(128,1,0123456789)"
    ensures NodeText(Head(0x99, 0x99, 4), []) == "Path(153,153,)"
  {
    DecimalExamples();
    HexExample();
    var h, body: seq<byte> := Head(128, 1, 9), [0x01, 0x23, 0x45, 0x67, 0x89];
    assert NodeText(h, body) == "Path(" + "128" + "," + "1" + "," + "0123456789" + ")";
    var u := Head(0x99, 0x99, 4);
    assert NodeText(u, []) == "Path(" + "153" + "," + "153" + "," + "" + ")";
  }

  lemma DecimalExamples()
    ensures Decimal(1) == "1" && Decimal(128) == "128" && Decimal(153) == "153"
  {
    assert Decimal(12) == "12";
    assert Decimal(15) == "15";
  }

  lemma HexExample()
    ensures HexEncode([0x01, 0x23, 0x45, 0x67, 0x89]) == "0123456789"
  {
    var body: seq<byte> := [0x01, 0x23, 0x45, 0x67, 0x89];
    assert HexEncode(body[4..]) == "89";
    assert HexEncode(body[3..]) == "6789";
    assert HexEncode(body[2..]) == "456789";
    assert HexEncode(body[1..]) == "23456789";
  }
}

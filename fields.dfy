/** Sequential little-endian field writing with a shared running offset
    (efiwriter/fields.go). */
module Fields {
  import opened Bytes
  import opened Streams

  /** The values `binary.Write` is given by the codec: fixed-size unsigned
      integers and byte slices. */
  datatype Field =
    | U8(u8: byte)
    | U16(u16: uint16)
    | U32(u32: uint32)
    | U64(u64: uint64)
    | Raw(bytes: seq<byte>)

  /** The number of bytes `binary.Write` produces for a field. */
  function Size(f: Field): nat {
    match f
    case U8(_) => 1
    case U16(_) => 2
    case U32(_) => 4
    case U64(_) => 8
    case Raw(b) => |b|
  }

  function TotalSize(fields: seq<Field>): nat {
    if fields == [] then 0 else TotalSize(fields[..|fields| - 1]) + Size(fields[|fields| - 1])
  }

  /** The numeric value of an integer field. */
  function IntegerValue(f: Field): nat
    requires !f.Raw?
  {
    match f
    case U8(v) => v as nat
    case U16(v) => v as nat
    case U32(v) => v as nat
    case U64(v) => v as nat
  }

  /** The bytes `binary.Write(w, binary.LittleEndian, f)` hands to `w`: an
      integer in little-endian order, a byte slice as it is. */
  function Encode(f: Field): (r: seq<byte>)
    ensures |r| == Size(f)
  {
    match f
    case U8(v) => [v]
    case U16(v) => LittleEndian(v as nat, 2)
    case U32(v) => LittleEndian(v as nat, 4)
    case U64(v) => LittleEndian(v as nat, 8)
    case Raw(b) => b
  }

  /** Every integer field decodes back to its value; a byte-slice field is
      emitted verbatim. */
  lemma EncodeRoundTrip(f: Field)
    ensures f.Raw? ==> Encode(f) == f.bytes
    ensures !f.Raw? ==> FromLittleEndian(Encode(f)) == IntegerValue(f)
  {
    match f
    case U8(v) => assert FromLittleEndian([v]) == v as nat + 256 * FromLittleEndian([]);
    case U16(v) => assert Pow256(2) == 0x1_0000; LittleEndianRoundTrip(v as nat, 2);
    case U32(v) => assert Pow256(4) == 0x1_0000_0000; LittleEndianRoundTrip(v as nat, 4);
    case U64(v) => assert Pow256(8) == 0x1_0000_0000_0000_0000; LittleEndianRoundTrip(v as nat, 8);
    case Raw(b) =>
  }

  /** Byte runs written one after the other. */
  function Concat(chunks: seq<seq<byte>>): seq<byte> {
    if chunks == [] then [] else Concat(chunks[..|chunks| - 1]) + chunks[|chunks| - 1]
  }

  /** The field encodings, one per field. */
  function Chunks(fields: seq<Field>): (r: seq<seq<byte>>)
    ensures |r| == |fields|
    ensures forall i :: 0 <= i < |fields| ==> r[i] == Encode(fields[i])
  {
    seq(|fields|, i requires 0 <= i < |fields| => Encode(fields[i]))
  }

  /** The bytes of the fields written in order. */
  function EncodeAll(fields: seq<Field>): seq<byte> {
    Concat(Chunks(fields))
  }

  lemma {:induction false} ConcatSplit(chunks: seq<seq<byte>>, k: nat)
    requires k <= |chunks|
    ensures Concat(chunks) == Concat(chunks[..k]) + Concat(chunks[k..])
    decreases |chunks|
  {
    if k == |chunks| {
      assert chunks[..k] == chunks;
      assert chunks[k..] == [];
    } else {
      var init := chunks[..|chunks| - 1];
      var tail := chunks[k..];
      ConcatSplit(init, k);
      assert init[..k] == chunks[..k];
      assert tail[..|tail| - 1] == init[k..] && tail[|tail| - 1] == chunks[|chunks| - 1];
    }
  }

  /** `EncodeAll` of one more field of a prefix. */
  lemma EncodeAllStep(fields: seq<Field>, i: nat)
    requires i < |fields|
    ensures EncodeAll(fields[..i + 1]) == EncodeAll(fields[..i]) + Encode(fields[i])
  {
    assert Chunks(fields[..i + 1])[..i] == Chunks(fields[..i]);
  }

  /** The encoding of a field list is as long as the sum of the field sizes. */
  lemma {:induction false} EncodeAllLength(fields: seq<Field>)
    ensures |EncodeAll(fields)| == TotalSize(fields)
    decreases |fields|
  {
    if fields != [] {
      var i := |fields| - 1;
      EncodeAllStep(fields, i);
      assert fields[..i + 1] == fields;
      EncodeAllLength(fields[..i]);
    }
  }

  /** What offering `fields` in order to a sink of `capacity` bytes that held
      `start` leaves behind: the sink holds as much of their encodings as fits;
      the status is `Ok` exactly when all of them fit, and otherwise names the
      first field that did not fit. */
  ghost predicate WroteFields(start: seq<byte>, fields: seq<Field>, capacity: nat, data: seq<byte>, err: Status) {
    && data == Clip(start + EncodeAll(fields), capacity)
    && (err.Ok? <==> |start| + TotalSize(fields) <= capacity)
    && (err.Failed? ==>
          && err.error.FieldFailed? && err.error.cause == ShortWrite
          && err.error.index < |fields|
          && |start| + TotalSize(fields[..err.error.index]) <= capacity
          && |start| + TotalSize(fields[..err.error.index + 1]) > capacity)
  }

  /** When field `i` does not fit after all earlier ones did, the sink ends up
      holding what it would have held had every field been offered. */
  lemma OverflowAt(start: seq<byte>, fields: seq<Field>, i: nat, capacity: nat)
    requires i < |fields|
    requires |start| + TotalSize(fields[..i]) <= capacity
    requires |start + EncodeAll(fields[..i]) + Encode(fields[i])| > capacity
    ensures WroteFields(start, fields, capacity,
                        Clip(start + EncodeAll(fields[..i]) + Encode(fields[i]), capacity),
                        Failed(FieldFailed(i, ShortWrite)))
  {
    var chunks := Chunks(fields);
    assert chunks[..i] == Chunks(fields[..i]);
    ConcatOverflow(start, chunks, i, capacity);
    EncodeAllStep(fields, i);
    EncodeAllLength(fields);
    EncodeAllLength(fields[..i + 1]);
  }

  /** The same for any byte runs: once run `i` overflows, later runs add nothing. */
  lemma ConcatOverflow(start: seq<byte>, chunks: seq<seq<byte>>, i: nat, capacity: nat)
    requires i < |chunks|
    requires |start + Concat(chunks[..i]) + chunks[i]| > capacity
    ensures Clip(start + Concat(chunks[..i]) + chunks[i], capacity) == Clip(start + Concat(chunks), capacity)
    ensures |Concat(chunks[..i]) + chunks[i]| <= |Concat(chunks)|
  {
    var front := chunks[..i + 1];
    ConcatSplit(chunks, i + 1);
    assert front[..|front| - 1] == chunks[..i] && front[|front| - 1] == chunks[i];
    assert Concat(front) == Concat(chunks[..i]) + chunks[i];
    var tail := Concat(chunks[i + 1..]);
    AppendAssociative(start, Concat(chunks[..i]), chunks[i], tail);
    ClipFull(start + Concat(chunks[..i]) + chunks[i], tail, capacity);
  }

  lemma AppendAssociative(a: seq<byte>, b: seq<byte>, c: seq<byte>, d: seq<byte>)
    ensures a + ((b + c) + d) == a + b + c + d
  {
  }

  /** When field `i` fits after all earlier ones did, the sink holds the
      encodings of the first `i + 1` fields. */
  lemma FitsStep(start: seq<byte>, fields: seq<Field>, i: nat, capacity: nat)
    requires i < |fields|
    requires |start + EncodeAll(fields[..i]) + Encode(fields[i])| <= capacity
    ensures start + EncodeAll(fields[..i]) + Encode(fields[i]) == start + EncodeAll(fields[..i + 1])
    ensures |start| + TotalSize(fields[..i + 1]) <= capacity
  {
    EncodeAllStep(fields, i);
    EncodeAllLength(fields[..i + 1]);
  }

  /** The writes offered for the first `i + 1` fields. */
  lemma ChunksStep(fields: seq<Field>, i: nat)
    requires i < |fields|
    ensures Chunks(fields)[..i + 1] == Chunks(fields)[..i] + [Encode(fields[i])]
  {
  }

  /** When every field fits, the sink holds all of their encodings. */
  lemma AllFit(start: seq<byte>, fields: seq<Field>, capacity: nat)
    requires |start + EncodeAll(fields)| <= capacity
    ensures WroteFields(start, fields, capacity, start + EncodeAll(fields), Ok)
  {
    EncodeAllLength(fields);
  }

  /** The `int64` a `FieldWriter` adds its byte counts to; several writers
      (and their creator) may share one. */
  class Counter {
    var value: int

    constructor (value: int)
      ensures this.value == value
    {
      this.value := value;
    }
  }

  class FieldWriter {
    const writer: Sink
    const offset: Counter

    constructor (writer: Sink, offset: Counter)
      ensures this.writer == writer && this.offset == offset
    {
      this.writer := writer;
      this.offset := offset;
    }

    /** `(*FieldWriter).Write`: forwards to the underlying writer and adds
        the count it reports to the shared offset. */
    method Write(p: seq<byte>) returns (n: nat, err: Status)
      requires writer.Valid()
      modifies writer, offset
      ensures writer.Valid()
      ensures writer.data == Clip(old(writer.data) + p, writer.capacity)
      ensures n == |writer.data| - |old(writer.data)|
      ensures offset.value == old(offset.value) + n
      ensures err == if n == |p| then Ok else Failed(ShortWrite)
      ensures writer.offered == old(writer.offered) + [p]
    {
      n, err := writer.Write(p);
      offset.value := offset.value + n;
    }

    /** `(*FieldWriter).Offset`: reads the shared counter. */
    method Offset() returns (r: int)
      ensures r == offset.value
    {
      r := offset.value;
    }

    /** `(*FieldWriter).WriteFields`: writes the fields in order and stops at
        the first one whose write fails, reporting its index. */
    method WriteFields(fields: seq<Field>) returns (err: Status)
      requires writer.Valid()
      modifies writer, offset
      ensures writer.Valid()
      ensures WroteFields(old(writer.data), fields, writer.capacity, writer.data, err)
      ensures offset.value == old(offset.value) + (|writer.data| - |old(writer.data)|)
      ensures err.Ok? ==> writer.offered == old(writer.offered) + Chunks(fields)
      ensures err.Failed? ==>
                err.error.FieldFailed? && writer.offered == old(writer.offered) + Chunks(fields)[..err.error.index + 1]
    {
      ghost var start := writer.data;
      ghost var log := writer.offered;
      var i := 0;
      while i < |fields|
        invariant 0 <= i <= |fields|
        invariant writer.Valid()
        invariant writer.data == start + EncodeAll(fields[..i])
        invariant |start| + TotalSize(fields[..i]) <= writer.capacity
        invariant offset.value == old(offset.value) + (|writer.data| - |start|)
        invariant writer.offered == log + Chunks(fields)[..i]
      {
        var e := BinaryWrite(this, fields[i]);
        ChunksStep(fields, i);
        if e.Failed? {
          err := Failed(FieldFailed(i, e.error));
          OverflowAt(start, fields, i, writer.capacity);
          return;
        }
        FitsStep(start, fields, i, writer.capacity);
        i := i + 1;
      }
      assert fields[..i] == fields;
      assert Chunks(fields)[..i] == Chunks(fields);
      err := Ok;
      AllFit(start, fields, writer.capacity);
    }
  }

  /** `binary.Write(w, binary.LittleEndian, f)`: one write of the field's
      encoding; the byte count is dropped, the error returned. */
  method BinaryWrite(w: FieldWriter, f: Field) returns (err: Status)
    requires w.writer.Valid()
    modifies w.writer, w.offset
    ensures w.writer.Valid()
    ensures w.writer.data == Clip(old(w.writer.data) + Encode(f), w.writer.capacity)
    ensures w.offset.value == old(w.offset.value) + (|w.writer.data| - |old(w.writer.data)|)
    ensures err.Ok? <==> |old(w.writer.data)| + Size(f) <= w.writer.capacity
    ensures err.Failed? ==> err.error == ShortWrite
    ensures w.writer.offered == old(w.writer.offered) + [Encode(f)]
  {
    var _, e := w.Write(Encode(f));
    err := e;
  }

  /** `NewFieldWriter`: a nil offset gets a fresh counter at zero; a given
      one is shared, so the caller sees every count added through it. */
  method NewFieldWriter(writer: Sink, offset: Counter?) returns (fw: FieldWriter)
    ensures fresh(fw) && fw.writer == writer
    ensures offset != null ==> fw.offset == offset
    ensures offset == null ==> fresh(fw.offset) && fw.offset.value == 0
  {
    var o := offset;
    if o == null {
      o := new Counter(0);
    }
    fw := new FieldWriter(writer, o);
  }

  /** Package-level `WriteFields`: field writing through a writer whose
      counter is the result `n`, so `n` is the number of bytes written. */
  method WriteFields(w: Sink, fields: seq<Field>) returns (n: int, err: Status)
    requires w.Valid()
    modifies w
    ensures w.Valid()
    ensures WroteFields(old(w.data), fields, w.capacity, w.data, err)
    ensures n == |w.data| - |old(w.data)|
    ensures err.Ok? ==> n == TotalSize(fields) && w.data == old(w.data) + EncodeAll(fields)
    ensures err.Ok? ==> w.offered == old(w.offered) + Chunks(fields)
    ensures err.Failed? ==>
              err.error.FieldFailed? && w.offered == old(w.offered) + Chunks(fields)[..err.error.index + 1]
  {
    var counter := new Counter(0);
    var fw := NewFieldWriter(w, counter);
    err := fw.WriteFields(fields);
    n := counter.value;
    EncodeAllLength(fields);
  }
}

# go-uefi: special device-path nodes and the efiwriter codec, in Dafny

This project models three small pieces of go-uefi, a Go library that reads and writes UEFI
load options and device paths. It states and proves what each piece does.

- **Special device-path nodes** (`efi/efitypes/efidevicepath/specialpath.go`).
  - `EndOfPath` is the body-less node that ends a device path.
  - `UnrecognizedDevicePath` is the fallback for a node whose type and sub-type have no
    decoder. It keeps the node's body as raw bytes, writes them back verbatim, derives the
    header length from them, and renders the node as text: one of `MAC(<hex>,<iftype>)`,
    `Uri(<text>)` or `Path(<type>,<sub-type>,<hex>)`.
  - The end-node constants are `EndSingleSubType = 1` and `EndEntireSubType = 0xFF`. The
    end-node type is `0x7F` and the messaging type is `3`, as in sections 10.3.1 and 10.3.4
    of the UEFI Specification.
- **Null-terminated strings** (`efi/efiwriter/string.go`). This covers length, write and
  construction of ASCII strings ended by one zero byte, and of UTF-16LE strings ended by a
  zero code unit.
  - The UTF-16 terminator scan `indexUtf16NullTerminate` is proved to return the least even
    offset at which a `00 00` pair starts, or -1 when there is none. Its loop tests the parity
    of an index it has not found yet, which looks as if it could stop early. The proof shows
    that it never does.
  - `StringToUTF16Bytes` is little-endian UTF-16 as in section 2.1 of RFC 2781.
- **The field writer** (`efi/efiwriter/fields.go`). It writes little-endian fields one after
  another and adds every byte count to a running offset that several writers may share.

Modules:

- `Bytes`: fixed-width integers, little-endian encoding, `bytes.IndexByte` and `bytes.Index`
  for `00 00`.
- `Streams`: the writer and reader.
  - A writer (`Sink`) has a fixed capacity. It stores what still fits and reports a short
    write when that is less than it was given, which gives every write a real failure path.
  - The writer also keeps a ghost log (`offered`) of the argument of every write call. This lets
    contracts say which writes a caller issued, and that nothing was written after a failure.
  - A reader (`Reader`) is the byte sequence left in an already bounded stream.
- `Fields`: `efiwriter/fields.go`.
- `Strings`: `efiwriter/string.go`.
- `Format`: the hex, decimal, trim and ASCII-Z-to-text helpers the renderer calls.
- `SpecialPath`: `efidevicepath/specialpath.go`.

Where the Go code mutates state, the model does too:

- The nodes, the writer, the reader, the field writer and its shared counter (Go's `*int64`)
  are classes.
- The UTF-16 terminator scan and `StringToUTF16Bytes` are loops. `StringToUTF16Bytes` fills
  an array through a running index.
- Each method is proved against a pure function, and the lemmas are stated about those
  functions.

Go's `nullIndex&1 == 1` is written `nullIndex % 2 == 1`. Dafny's `%` is Euclidean, so
`-1 % 2 == 1`, which is the two's-complement fact that makes the scan loop start.

## Model

| member | source | states |
|---|---|---|
| Bytes.LittleEndianRoundTrip | efi/efiwriter/fields.go:40 | The little-endian bytes of a value that fits the width decode back to the value. |
| Bytes.FromLittleEndianRoundTrip | efi/efiwriter/fields.go:40 | Little-endian bytes are determined by the value they decode to. |
| Bytes.IndexByte | efi/efiwriter/string.go:25 | `bytes.IndexByte` gives -1 exactly when the byte is absent. Otherwise it gives the offset of its first occurrence. |
| Bytes.IndexNullPair | efi/efiwriter/string.go:97 | `bytes.Index(s, {0,0})` gives the first offset, odd or even, where a `00 00` pair starts, or -1 when no pair exists. |
| Streams.Sink.Write | efi/efiwriter/fields.go:29 | The writer keeps what fits its capacity and returns the count it stored. It reports a short write exactly when that count is below the length it was given. The argument is added to the log of offered writes. |
| Streams.Reader.ReadAll | efi/efitypes/efidevicepath/specialpath.go:60 | `io.ReadAll` returns every remaining byte and leaves the reader empty. |
| Fields.EncodeRoundTrip | efi/efiwriter/fields.go:40 | A byte-slice field is written verbatim. An integer field's bytes decode, little-endian, to its value. |
| Fields.EncodeAllLength | efi/efiwriter/fields.go:55-58 | The encodings of a field list together take the sum of the fields' sizes. |
| Fields.EncodeAllStep | efi/efiwriter/fields.go:39-40 | Writing one field more appends exactly its encoding. |
| Fields.OverflowAt | efi/efiwriter/fields.go:39-43 | Once field `i` is the first that does not fit, the writer ends up holding what it would hold had all fields been offered, and the error names field `i`. |
| Fields.AllFit | efi/efiwriter/fields.go:39-45 | When every field fits, the writer holds all encodings in order and there is no error. |
| Fields.FieldWriter.Write | efi/efiwriter/fields.go:28-32 | It forwards to the underlying writer as exactly one write of its argument. The shared offset grows by exactly the count the writer returned. |
| Fields.FieldWriter.Offset | efi/efiwriter/fields.go:34-36 | It returns the shared counter and changes nothing. |
| Fields.FieldWriter.WriteFields | efi/efiwriter/fields.go:38-46 | The fields are written in order, each little-endian. The status is `Ok` exactly when all of them fit. Otherwise the error carries the index of the first field that did not fit. The offset grows by the bytes appended. The writer is offered one write per field, each a field's whole encoding. On success every field is offered. On failure the fields up to and including the failing one are offered, and none after it. |
| Fields.ChunksStep | efi/efiwriter/fields.go:39-45 | The writes for the first `i + 1` fields are those for the first `i`, then the encoding of field `i`. |
| Fields.BinaryWrite | efi/efiwriter/fields.go:40 | `binary.Write` of one field offers its whole encoding in a single write, and the log records exactly that write. It fails exactly when the encoding does not fit. |
| Fields.NewFieldWriter | efi/efiwriter/fields.go:48-53 | A nil offset gets a fresh counter at 0. A given counter is shared, so the caller sees every count added through it. |
| Fields.WriteFields | efi/efiwriter/fields.go:55-58 | The returned `n` is the number of bytes appended. On success the writer holds the concatenated encodings, and `n` is the sum of the fields' sizes. Every field is offered on success. On failure nothing is offered after the field that failed. |
| Strings.AsciiZBytes | efi/efiwriter/string.go:33-46 | The ASCII-Z output is the input up to and including its first zero, or the whole input plus one added zero. It always ends in its only zero. |
| Strings.LengthASCIINullBytes | efi/efiwriter/string.go:24-31 | The length is the first zero's offset plus one, or the input length plus one when there is no zero. It equals the number of bytes the writer emits. |
| Strings.WriteASCIINullBytes | efi/efiwriter/string.go:33-46 | The writer receives the ASCII-Z output, clipped when it runs out of room, and `n` counts what it took. The status is `Ok` exactly when all of it fits. Then `n` equals `LengthASCIINullBytes(in)`. An input holding a zero is one write up to that zero. Otherwise the input is one write, and the zero is written only if the input went through. |
| Strings.WriteTerminated | efi/efiwriter/string.go:35-41 | For an input without a terminator: the input is written, and the terminator follows only if the input went through. The status is `Ok` exactly when both fit. |
| Strings.StringToASCIIZBytes | efi/efiwriter/string.go:48-50 | The result is the string's bytes followed by one zero. For a string without zeros, writing the result again reproduces it. |
| Strings.AsciiZIdempotent | efi/efiwriter/string.go:33-46 | Writing the ASCII-Z output again reproduces it. |
| Strings.AlignedNullFrom | efi/efiwriter/string.go:93-106 | Searching from an even offset finds the least even offset from there at which a `00 00` pair starts, or -1. |
| Strings.Utf16NullIndex | efi/efiwriter/string.go:93-106 | Gives -1 exactly when no even offset starts a `00 00` pair. Otherwise it gives the least even offset that does. |
| Strings.IndexUtf16NullTerminate | efi/efiwriter/string.go:93-106 | The loop, which re-runs `bytes.Index` past each odd hit, returns exactly `Utf16NullIndex`. |
| Strings.Utf16ZBytes | efi/efiwriter/string.go:61-74 | The output is the input up to and including its aligned terminator, or the whole input plus `00 00`. It always ends in `00 00`. It has the input's length plus two exactly when no aligned terminator exists. |
| Strings.LengthUTF16NullBytes | efi/efiwriter/string.go:52-59 | The length is the number of bytes the UTF-16 writer emits. |
| Strings.WriteUTF16NullBytes | efi/efiwriter/string.go:61-74 | The writer receives the UTF-16-Z output, clipped when it runs out of room, and `n` counts what it took. The status is `Ok` exactly when all of it fits. Then `n` equals `LengthUTF16NullBytes(in)`. An input holding an aligned terminator is one write up to it. Otherwise the input is one write, and `00 00` is written only if the input went through. |
| Strings.Utf16ZIdempotent | efi/efiwriter/string.go:52-74 | Writing the output again reproduces it exactly when the input had even length or held an aligned terminator. |
| Strings.Utf16ZBytesExamples | efi/efiwriter/string_test.go:30-47 | A terminated input is kept. Bytes after the terminator are dropped. An unterminated input gains `00 00`. |
| Strings.EncodeRune | efi/efiwriter/string.go:77 | A code point becomes two code units exactly when it lies beyond the Basic Multilingual Plane, and otherwise the single unit equal to it. The two units are a high surrogate then a low surrogate, and together they encode the code point. |
| Strings.Utf16Encode | efi/efiwriter/string.go:77 | A string has at least as many code units as code points and at most twice as many. |
| Strings.Utf16RoundTrip | efi/efiwriter/string.go:77 | UTF-16 decoding of the encoded code units gives back the string. |
| Strings.Utf16EncodeNoZero | efi/efiwriter/string.go:77 | A string without U+0000 encodes to code units that contain no zero. |
| Strings.UnitsLittleEndian | efi/efiwriter/string.go:78-84 | Each code unit takes two bytes. |
| Strings.UnitsLittleEndianAt | efi/efiwriter/string.go:80-83 | Code unit `k` is stored at bytes `2k` and `2k+1`, low byte first. |
| Strings.UnitsRoundTrip | efi/efiwriter/string.go:80-83 | Reading byte pairs back as little-endian code units gives the original units. |
| Strings.StringToUTF16Bytes | efi/efiwriter/string.go:76-85 | The array filled through the running index holds the little-endian bytes of the string's code units. It is twice as long as there are code units. |
| Strings.StringToUTF16ZBytes | efi/efiwriter/string.go:87-91 | The result is the UTF-16LE bytes followed by `00 00`. |
| Strings.Utf16ZOfText | efi/efiwriter/string.go:87-91 | For a string without U+0000, the aligned terminator of its Z-bytes is the appended `00 00`. Writing them again reproduces them, and their length is twice the code units plus two. |
| Strings.UnitsZ | efi/efiwriter/string.go:87-91 | Code units without a zero, as bytes with `00 00` appended: the aligned terminator is the appended pair, writing them again reproduces them, and their length is twice the units plus two. |
| Strings.UnitsZIndex | efi/efiwriter/string.go:93-106 | In the bytes of code units without a zero, with `00 00` appended, the first aligned `00 00` is the appended pair. |
| Strings.Utf16BytesExamples | efi/efiwriter/string_test.go:70-91 | `"test"` encodes to `74 00 65 00 73 00 74 00`. `"asd"` with its terminator is `61 00 73 00 64 00 00 00`. |
| Format.HexEncode | efi/efitypes/efidevicepath/specialpath.go:102 | Two hex digits per byte. |
| Format.HexRoundTrip | efi/efitypes/efidevicepath/specialpath.go:102 | The hex text determines the bytes it was made from. |
| Format.Decimal | efi/efitypes/efidevicepath/specialpath.go:98-101 | `%d` gives a non-empty digit string with no leading zero (unless it is `"0"`) whose value is the number. |
| Format.TrimLeft | efi/efitypes/efidevicepath/specialpath.go:86 | Only a leading run of the cut character is removed, and the result does not start with it. |
| Format.TrimRight | efi/efitypes/efidevicepath/specialpath.go:86 | Only a trailing run of the cut character is removed, and the result does not end with it. |
| Format.Trim | efi/efitypes/efidevicepath/specialpath.go:86 | The input is the result between a run of the cut character on each side. The result neither starts nor ends with it. |
| Format.AsciiZToString | efi/efitypes/efidevicepath/specialpath.go:94 | The text is the bytes before the first zero, one character per byte. |
| SpecialPath.ToUint16 | efi/efitypes/efidevicepath/specialpath.go:74 | Go's `uint16(x)` keeps `x` modulo 65536, which is `x` itself when it fits. |
| SpecialPath.EndOfPath.ReadFrom | efi/efitypes/efidevicepath/specialpath.go:30 | It reads nothing (the reader is not in its frame), reports 0 bytes and no error. |
| SpecialPath.EndOfPath.WriteTo | efi/efitypes/efidevicepath/specialpath.go:31 | It writes nothing (the writer is not in its frame), reports 0 bytes and no error. |
| SpecialPath.EndOfPath.UpdateHead | efi/efitypes/efidevicepath/specialpath.go:33-38 | The header becomes type `EndOfPathType`, sub-type `EndEntireSubType`, length 4, and is returned. |
| SpecialPath.EndOfPath.Text | efi/efitypes/efidevicepath/specialpath.go:39 | The text is empty. |
| SpecialPath.UnrecognizedDevicePath.ReadFrom | efi/efitypes/efidevicepath/specialpath.go:59-63 | The body becomes every remaining byte of the reader, and `n` is its length. The header is unchanged. |
| SpecialPath.UnrecognizedDevicePath.WriteTo | efi/efitypes/efidevicepath/specialpath.go:65-67 | The body is written verbatim, as exactly one write. On success `n` is its length. A short write reports field 0. |
| SpecialPath.UnrecognizedDevicePath.UpdateHead | efi/efitypes/efidevicepath/specialpath.go:73-76 | The length becomes `uint16(4 + len(Data))`, which is `4 + len(Data)` for bodies below 65532 bytes. Type, sub-type and body are unchanged. |
| SpecialPath.ParseUnrecognizedDevicePath | efi/efitypes/efidevicepath/specialpath.go:106-110 | A new node keeps the given header and takes the rest of the stream as its body. |
| SpecialPath.ReadWriteRoundTrip | efi/efitypes/efidevicepath/specialpath.go:59-76 | Parsing a body, updating the header and writing the node to a sink with room for the body reproduces the body byte for byte, including the empty body. The new header is the given one with only its length replaced, so type and sub-type are kept. The length is `uint16(4 + len(body))`, which is 4 plus the body length when it fits. |
| SpecialPath.UnrecognizedDevicePath.Text | efi/efitypes/efidevicepath/specialpath.go:78-104 | A messaging/11 node renders as `MAC(<address>,<interface type>)`. The interface type is read with the corrected guard (`MacIfType`; see Findings). A messaging/24 node renders as `Uri(` + its ASCII-Z body + `)`. Every other node renders as `Path(...)` text, and reading that text back gives its type, sub-type and body. |
| SpecialPath.MacTextOfShortBody | efi/efitypes/efidevicepath/specialpath.go:79-89 | A MAC node with a 32-byte body renders with interface type `0`, where the code as written indexes past the body. |
| SpecialPath.MacIfType | efi/efitypes/efidevicepath/specialpath.go:79-83 | The interface type is the body byte at offset 32, or 0 when the body is too short to hold it. |
| SpecialPath.MacIfTypeAsWritten | efi/efitypes/efidevicepath/specialpath.go:81-82 | The guard as written indexes out of range exactly for a 32-byte body. Otherwise it agrees with `MacIfType`. |
| SpecialPath.MacGuardAdmitsShortBody | efi/efitypes/efidevicepath/specialpath.go:81-82 | A 32-byte body passes the guard and then indexes past its end. |
| SpecialPath.MacAddressText | efi/efitypes/efidevicepath/specialpath.go:84-88 | The MAC text is the body's hex with its leading and trailing `0` digits removed. It never starts or ends with `0`. |
| SpecialPath.PathTextRoundTrip | efi/efitypes/efidevicepath/specialpath.go:98-103 | For every tag other than messaging 11 and 24, the text is `Path(<type>,<sub-type>,<hex>)`. Reading it back gives the type, the sub-type and the whole body. |
| SpecialPath.UriTextRoundTrip | efi/efitypes/efidevicepath/specialpath.go:91-96 | A messaging/24 node whose body is an ASCII-Z string renders as `Uri(` + that string + `)`. |
| SpecialPath.PathTextExamples | efi/efitypes/loadoption_test.go:81 | Type 128, sub-type 1 and body `01 23 45 67 89` render as `Path(128,1,0123456789)`. An empty body under tag 0x99/0x99 renders as `Path(153,153,)`. |

## Left out

- I/O and its failures are modelled only as a writer with a finite capacity and an in-memory reader. A reader never fails, so `io.ReadAll` errors are not modelled.
- Fields.FieldWriter.Write: the shared counter is an unbounded integer, so the `int64` wrap-around of `*offset` is not modelled.
- Fields.WriteFields: `n` is an unbounded integer, not an `int64`.
- `binary.Write` accepts any fixed-size value through reflection. The model accepts only `uint8`, `uint16`, `uint32`, `uint64` and byte slices, the kinds this codec passes.
- The `fmt.Errorf` wrapping is modelled as an error value that carries the field index and the cause. The message text is not modelled.
- Strings.StringToUTF16Bytes: its input is a sequence of Unicode scalar values, which is what Go's `[]rune(s)` gives for well-formed UTF-8. Decoding UTF-8, including its replacement of invalid bytes by U+FFFD, is not modelled.
- Strings.StringToASCIIZBytes: its input is the string's bytes, as `[]byte(s)` gives them.
- `GetHead` and `UpdateHead` return a pointer that aliases the node's embedded header. The model exposes the header as a field, and `UpdateHead` returns a copy of it. Updates made through the returned header are not modelled.
- `efihex.EncodeToString` is not part of this model. The letter case of its digits is not visible, and the model uses upper-case `A`-`F`.
- `efireader.ASCIIZBytesToString` is not part of this model. Format.AsciiZToString maps each byte to the character with the same code; how Go then treats bytes above 0x7F as UTF-8 is not modelled.
- `Head`, its `Is` method and the constants `EndOfPathType` and `MessagingType` are defined outside the files modelled here. The model takes `Is` as a comparison of type and sub-type, and takes the constants from the UEFI Specification.
- The end-node type is `0x7F`, as in section 10.3.1 of the UEFI Specification, and not `0xFF`. `0xFF` is the sub-type that ends an entire path. The constant's own definition is not among the files modelled here.
- Device-path list parsing, the type/sub-type registry, the hard-drive, file and BBS nodes and `LoadOption` are not part of this model.
- Go interfaces are not modelled. `ParseUnrecognizedDevicePath` returns the concrete node rather than a `DevicePath` interface value.

## Findings

| source | as written | input that shows it | evidently intended | confidence | as-written member | corrected member |
|---|---|---|---|---|---|---|
| efi/efitypes/efidevicepath/specialpath.go:81-82 | The guard `len(p.Data) >= 32` is followed by `p.Data[32]` | A messaging/11 (MAC) node with a body of exactly 32 bytes passes the guard. The index is then out of range and `Text` panics. | Read the interface type only when the body has at least 33 bytes, and use 0 otherwise. | not executed | SpecialPath.MacIfTypeAsWritten (shown by SpecialPath.MacGuardAdmitsShortBody) | SpecialPath.MacIfType |

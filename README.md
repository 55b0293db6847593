# Environment codec

A Dafny model of the generated Protocol Buffers codec for the `Environment`
message in `types/environment.pb.go`: the base-128 varints and the
tag-length-value message structure of the Protocol Buffers wire format, as
that file writes and reads them. An `Environment` holds three proto3 strings:
`description` (field 1), `name` (field 2) and `organization` (field 3). It
also holds `XXX_unrecognized`, the raw bytes of fields the schema does not
know.

The modules follow the Go code:

- `Wire`: the Go machine types (`int`, `uint64`, `int32` conversions with
  their wrap-around) and the codec's error values.
- `Varint`: `encodeVarintEnvironment`, `sovEnvironment`, `sozEnvironment`,
  and the varint reading loop that Unmarshal and skipEnvironment inline.
  `EncodeVarint` is a method that writes into an array, `Sov` a loop over
  the value, and `ReadVarintAt` a loop reading an array. They are proved
  against the functions `VarintBytes`, `VarintSize` and `ReadVarint`.
  `ZigZag` and `Soz` are functions.
- `Record`: the record as a value, `Equal`, and `Merge`, which is what
  decoding into a non-empty record does.
- `Encoding`: the bytes `MarshalTo` writes, as a function.
- `Skipping`: skipEnvironment as a function, including groups.
- `Decoding`: Unmarshal as a function. One step per field, iterated to the
  end of the buffer. On an error it returns the error together with the
  record as Go leaves it, since Go updates the record in place.
- `EnvironmentPb`: the `Environment` class, whose fields Unmarshal and Reset
  assign. It also holds Size, which sums the field sizes, and MarshalTo and
  Marshal, which write into an array at an advancing index. Unmarshal's
  string reading and skipEnvironment are index-driven loops over the input
  array. Each method is proved against the functions above.
- `UnknownFields`: well-formed unknown fields of wire types 0, 1, 2 and 5,
  and the proof that skipEnvironment frames each one exactly.
- `RoundTrip`: decoding inverts encoding. This holds for any record whose
  unknown tail is a run of well-formed fields numbered 4 and up. It also
  covers merging, concatenation and the last occurrence winning.
- `Rejection`: every error Unmarshal reports, and for which input.
- `Findings`: three additions of Go ints that wrap around (see below).
- `Populate`: the test-data generators, as functions of the values they
  draw. Every record they build round-trips.

Go strings are raw bytes (`seq<byte>`); Unmarshal makes no UTF-8 check.
The input buffer of Unmarshal and skipEnvironment is an `array<byte>` that
is only read. skipEnvironment on the slice `dAtA[base:]` is modelled as the
whole array plus the offset `base`.

What the code does at the edges, as the model states it:

- A prefix of an encoding that ends at a field boundary decodes without
  error into a partial record. A cut inside a string field is unexpected
  EOF, after everything before it has been decoded
  (`Rejection.TruncatedAfterEncoding`).
- A length past the buffer is unexpected EOF. `ErrInvalidLengthEnvironment`
  is kept for negative lengths (and, in the corrected model, for sums that
  pass the largest int).
- A varint fails with integer overflow after ten bytes that all have the
  continuation bit set. In a ten-byte varint, the bits shifted past bit 63
  are dropped without an error.
- A stray end-group tag is `wiretype end group for non-group`. An unknown
  field of wire type 6 or 7 is `illegal wireType`, and a known field of the
  wrong wire type is `wrong wireType`. Each has its own constructor in
  `Wire.Error`.
- The field number is `int32(wire >> 3)`, so numbers from 2^32 alias the
  low 32 bits. A tag numbered 2^32 + 1 sets the description
  (`RoundTrip.FieldNumberWraps`).
- A known field that occurs more than once keeps its last occurrence, even
  an empty one (`RoundTrip.LastOccurrenceWins`).

## Model

| member | source | states |
|---|---|---|
| Wire.Int64Of | types/environment.pb.go:339 | `int(x)` of a uint64: values below 2^63 are kept, larger ones become x - 2^64 |
| Wire.Int32Of | types/environment.pb.go:311 | `int32(x)`: the result is a signed 32-bit value congruent to x modulo 2^32, and x itself when it fits |
| Wire.Add64 | types/environment.pb.go:343 | Go's `+` on ints, for every pair of operands: the exact sum while it lies in the int range, the sum minus 2^64 above it and the sum plus 2^64 below it; for two non-negative operands a sum past the largest int comes out negative |
| Varint.VarintSize | types/environment.pb.go:278-287 | the number of seven-bit groups sovEnvironment counts is at least 1 |
| Varint.VarintBytes | types/environment.pb.go:165-173 | the bytes encodeVarintEnvironment writes number exactly VarintSize(v) |
| Varint.ReadVarintFrom | types/environment.pb.go:297-310 | from group k on, a read ends inside the buffer within the 10 - k bytes the shift allows |
| Varint.VarintBytesShape | types/environment.pb.go:165-173 | every byte of the varint but the last has the 0x80 bit set; the last is below 0x80 and is zero only for the value zero |
| Varint.VarintSizeOfUint64 | types/environment.pb.go:278-287 | sovEnvironment of a uint64 is between 1 and 10, and it is 10 exactly when the value is at least 2^63 |
| Varint.VarintSizeWithin | types/environment.pb.go:278-287 | a value takes at most k groups exactly when it is below 128^k |
| Varint.Sov | types/environment.pb.go:278-287 | the counting loop returns the number of bytes of the varint of x |
| Varint.EncodeVarint | types/environment.pb.go:165-173 | writes exactly the varint of v at offset, returns offset plus sov(v), and leaves every other byte of the array as it was |
| Varint.ReadVarint | types/environment.pb.go:297-310 | a varint read succeeds only inside the buffer, and takes at most ten bytes |
| Varint.ReadVarintAt | types/environment.pb.go:297-310 | the shift loop, with its overflow and EOF checks, returns what ReadVarint specifies |
| Varint.ReadVarintBytes | types/environment.pb.go:297-310 | reading back the varint of v anywhere in a buffer gives v and the position just after it |
| Varint.ReadVarintSpelled | types/environment.pb.go:297-310 | the same round trip, with the varint's bytes given byte by byte |
| Varint.ReadVarintTruncated | types/environment.pb.go:301-302 | a varint that runs into the end of the buffer within ten bytes is unexpected EOF |
| Varint.ReadVarintTooLong | types/environment.pb.go:298-299 | ten bytes with the continuation bit make the shift reach 64: integer overflow |
| Varint.ZigZag | types/environment.pb.go:288-290 | the zig-zag image is even exactly for non-negative signed values |
| Varint.ZigZagRoundTrip | types/environment.pb.go:288-290 | the zig-zag map is a bijection on 64-bit values; UnZigZag is its inverse on both sides |
| Varint.Soz | types/environment.pb.go:288-290 | sozEnvironment is between 1 and 10, and is 1 for every signed value in [-64, 64) |
| Record.Equal | types/environment.pb.go:112-124 | Equal holds exactly when the three strings and the unrecognized bytes are equal |
| Record.Merge | types/environment.pb.go:343-420 | decoding into a fresh record yields the decoded record; decoding into any record appends the unrecognized bytes to what it held |
| Record.MergeAssociative | types/environment.pb.go:294-421 | decoding a then b into m0 is decoding the merge of a and b into m0 |
| Encoding.FieldBytes | types/environment.pb.go:141-158 | one `if len(x) > 0` block of MarshalTo: an empty string writes nothing; a non-empty one writes 1 + sov(len) + len bytes, the first being the field's tag |
| Encoding.FieldSize | types/environment.pb.go:259-270 | Size's per-field term, 0 for an empty string and 1 + len + sov(len) otherwise, is the length of the bytes that field writes under each of the three tags |
| Encoding.Encode | types/environment.pb.go:136-163 | the encoding ends with the unrecognized bytes, verbatim; a set description comes first with tag 0x0a; a record with no strings encodes as its unrecognized bytes alone |
| Encoding.EncodeLength | types/environment.pb.go:257-276 | the encoding is as long as Size's sum: 1 + len + sov(len) per non-empty string, plus the unrecognized bytes |
| Encoding.FieldLayout | types/environment.pb.go:141-158 | an empty string writes nothing; a non-empty one writes its tag, the varint of its length, then its bytes |
| Encoding.ExampleEncoding | types/environment.pb.go:141-161 | Description "svc-a", empty Name and Organization "default" encode as 0a 05 "svc-a" 1a 07 "default" |
| EnvironmentPb.CopyInto | types/environment.pb.go:145 | copy writes s at i and changes no other byte |
| EnvironmentPb.WriteField | types/environment.pb.go:141-146 | one string field is written at i (tag, varint length, bytes), and the rest of the array is unchanged |
| EnvironmentPb.AppendField | types/environment.pb.go:141-158 | after a field, the array holds what was written before, then the field's bytes, then the original contents |
| EnvironmentPb.AppendRaw | types/environment.pb.go:159-161 | the unrecognized bytes are copied verbatim after the fields |
| EnvironmentPb.ReadStringAt | types/environment.pb.go:324-347 | the inlined length loop and bound checks of a string field return what ReadString specifies |
| EnvironmentPb.SkipEnvironment | types/environment.pb.go:429-527 | the index-driven skipper returns what SkipField specifies, for every wire type |
| EnvironmentPb.SkipGroupAt | types/environment.pb.go:488-516 | the group loop returns what SkipGroup specifies |
| EnvironmentPb.Environment.constructor | types/environment.pb.go:175 | a new record is empty |
| EnvironmentPb.Environment.Reset | types/environment.pb.go:36 | Reset leaves the empty record |
| EnvironmentPb.Environment.Size | types/environment.pb.go:257-276 | Size returns exactly the length of the encoding |
| EnvironmentPb.Environment.MarshalTo | types/environment.pb.go:136-163 | MarshalTo writes the encoding at the start of the buffer, returns its length (so Size), and leaves the bytes after it alone |
| EnvironmentPb.Environment.Marshal | types/environment.pb.go:126-134 | Marshal returns a fresh array of Size bytes that holds exactly the encoding |
| EnvironmentPb.Environment.Unmarshal | types/environment.pb.go:291-428 | the loop leaves the record and the error that Decode gives for the old record and the buffer |
| EnvironmentPb.GetDescription | types/environment.pb.go:69-74 | the description of a record; empty for a nil record |
| EnvironmentPb.GetName | types/environment.pb.go:76-81 | the name of a record; empty for a nil record |
| EnvironmentPb.GetOrganization | types/environment.pb.go:83-88 | the organization of a record; empty for a nil record |
| Skipping.SkipField | types/environment.pb.go:429-527 | a non-negative count returned by skipEnvironment is at least 1 |
| Skipping.SkipGroup | types/environment.pb.go:488-516 | a group ends strictly after the position its loop started at |
| Skipping.GroupResume | types/environment.pb.go:514 | corrected `start + next`: it succeeds exactly when the count is non-negative and the sum is a valid int, and is an invalid length otherwise |
| Skipping.SkipFraming | types/environment.pb.go:464-523 | after the tag, wire type 1 adds 8 bytes, 5 adds 4 and 4 adds none; wire types 6 and 7 are illegal |
| Skipping.SkipFramingVarint | types/environment.pb.go:450-463 | wire type 0 ends after one more varint and fails with that varint's error |
| Skipping.SkipFramingVarintOk | types/environment.pb.go:450-463 | wire type 0 with a value read from p to q frames q - base bytes |
| Skipping.SkipFramingFixed | types/environment.pb.go:464-466 | wire types 1 and 5 frame the tag plus 8 or 4 bytes |
| Skipping.SkipFramingBytes | types/environment.pb.go:467-487 | wire type 2 frames the tag, the length varint and length bytes; a negative length is invalid, and a count past the largest int comes back wrapped |
| Skipping.SkipFramingGroup | types/environment.pb.go:488-489 | wire type 3 hands over to the group loop just after the tag |
| Skipping.GroupEndFraming | types/environment.pb.go:506-509 | in a group, a tag of wire type 4 ends the group just after it, whatever its field number |
| Skipping.GroupErrorFraming | types/environment.pb.go:510-513 | in a group, a nested field that cannot be skipped fails the group with its error |
| Skipping.GroupNextFraming | types/environment.pb.go:510-514 | in a group, the loop goes on after a skipped nested field, or rejects a count that is negative or overflows |
| Decoding.SliceEnd | types/environment.pb.go:343-346 | corrected bound check: the end is start + count when that is within the buffer; otherwise an invalid length past the largest int and unexpected EOF before it |
| Decoding.ReadString | types/environment.pb.go:324-347 | a string read succeeds only within the buffer and returns the bytes just before its end position |
| Decoding.SetField | types/environment.pb.go:347 | the numbered field (1, 2 or 3; also :376 and :405) is replaced by s and every other field is kept |
| Decoding.SetFieldOverwrites | types/environment.pb.go:347 | assigning a field twice keeps only the second value |
| Decoding.UnmarshalStep | types/environment.pb.go:294-421 | each pass of the loop that goes on moves forward, stays within the buffer, and only appends to the unrecognized bytes |
| Decoding.DecodeFrom | types/environment.pb.go:294-421 | the loop only appends to the unrecognized bytes it started with, through an error as well |
| Decoding.Decode | types/environment.pb.go:291-428 | Unmarshal keeps the unrecognized bytes the record held as a prefix, and an empty buffer leaves the record as it is with no error |
| UnknownFields.TagBounds | types/environment.pb.go:311-312 | the tag of a valid field fits 32 bits; its low three bits are the wire type and the rest is the field number |
| UnknownFields.SkipVarintField | types/environment.pb.go:450-463 | skipEnvironment on a well-formed varint field returns its exact length, whatever follows |
| UnknownFields.SkipBytesField | types/environment.pb.go:467-487 | skipEnvironment on a well-formed length-delimited field returns its exact length |
| UnknownFields.SkipFixedField | types/environment.pb.go:464-466 | skipEnvironment on a well-formed 64-bit or 32-bit field returns its exact length |
| UnknownFields.SkipFieldEncoded | types/environment.pb.go:429-527 | skipEnvironment frames every well-formed field of wire type 0, 1, 2 or 5 exactly, after reading its tag |
| RoundTrip.KnownStep | types/environment.pb.go:319-348 | a tag 0x0a, 0x12 or 0x1a followed by a readable string assigns that string to field 1, 2 or 3 |
| RoundTrip.StringStep | types/environment.pb.go:311-348 | any wire-type-2 tag whose int32 field number is 1, 2 or 3 assigns the string that follows to that field |
| RoundTrip.Occurrence | types/environment.pb.go:320-347 | a string field written out in full takes its tag byte, the length varint and the bytes |
| RoundTrip.OccurrenceSpelled | types/environment.pb.go:319-348 | a string field written out in full, the empty string included, is consumed whole and assigned |
| RoundTrip.KnownFieldSpelled | types/environment.pb.go:319-348 | a non-empty string field as MarshalTo writes it is consumed whole and assigned |
| RoundTrip.UnknownStep | types/environment.pb.go:407-420 | an unknown field is skipped from its tag on, and exactly its bytes are appended to the unrecognized ones; the known fields are untouched |
| RoundTrip.UnknownFieldDecode | types/environment.pb.go:407-420 | a well-formed unknown field is appended verbatim and the decoding goes on after it |
| RoundTrip.UnknownsDecode | types/environment.pb.go:407-420 | a run of well-formed unknown fields is appended verbatim, in order of appearance |
| RoundTrip.EncodedDecode | types/environment.pb.go:291-428 | the encoding of m, found anywhere in a buffer, decodes as the merge of m into the current record and resumes right after it |
| RoundTrip.DecodeAtEnd | types/environment.pb.go:294 | at the end of the buffer the loop stops with no error |
| RoundTrip.DecodeEncoded | types/environment.pb.go:291-428 | Unmarshal of Marshal's bytes into a record m0 gives the merge of m into m0, with no error |
| RoundTrip.RoundTrip | types/environment.pb.go:93-428 | Unmarshal of Marshal's bytes into a fresh record gives back a record Equal to m, when m's unknown tail is well-formed fields numbered 4 and up |
| RoundTrip.DecodeConcatenation | types/environment.pb.go:291-428 | two encodings one after the other decode as the merge of both records |
| RoundTrip.LastOccurrenceWins | types/environment.pb.go:343-405 | a known field that occurs twice, either occurrence possibly empty, decodes to the record with the second occurrence assigned and no error |
| RoundTrip.FieldNumberWraps | types/environment.pb.go:311-347 | a tag whose field number is 2^32 + 1 is taken as field 1 and sets the description |
| RoundTrip.ExampleDecoding | types/environment.pb.go:291-428 | 0a 05 "svc-a" 1a 07 "default" decodes to that record |
| Rejection.DecodeStop | types/environment.pb.go:291-428 | a pass that fails ends Unmarshal with its error and the record as it stands |
| Rejection.EndGroupRejected | types/environment.pb.go:313-314 | a tag of wire type 4 is rejected before its field number is looked at |
| Rejection.IllegalTagRejected | types/environment.pb.go:316-317 | a tag whose int32 field number is 0 or negative is an illegal tag |
| Rejection.WrongWireTypeRejected | types/environment.pb.go:321-322 | fields 1, 2 and 3 (also :350-351 and :379-380) with a wire type other than 2 are rejected with the field's name |
| Rejection.TruncatedTagRejected | types/environment.pb.go:301-302 | a tag that runs into the end of the buffer is unexpected EOF |
| Rejection.OverlongTagRejected | types/environment.pb.go:298-299 | a tag of ten continuation bytes is integer overflow |
| Rejection.ReadStringCases | types/environment.pb.go:339-346 | for a string: a negative length is invalid, a length past the buffer is unexpected EOF, and otherwise the bytes up to the end are taken |
| Rejection.KnownFieldRejected | types/environment.pb.go:324-346 | a known field whose payload cannot be read stops Unmarshal with the string case's error |
| Rejection.UnknownFieldRejected | types/environment.pb.go:409-412 | an unknown field the skipper rejects stops Unmarshal with the skipper's error |
| Rejection.IllegalWireTypeRejected | types/environment.pb.go:522-523 | an unknown field of wire type 6 or 7 is an illegal wire type |
| Rejection.UnknownFieldTooLong | types/environment.pb.go:413-418 | an unknown field counted negative is an invalid length; one reaching past the buffer is unexpected EOF |
| Rejection.TruncatedFieldRejected | types/environment.pb.go:324-346 | a string field cut anywhere after its tag byte is unexpected EOF |
| Rejection.TruncatedAfterEncoding | types/environment.pb.go:291-428 | a complete encoding followed by a cut field: the record holds everything before the cut, and the error is unexpected EOF |
| Rejection.ExampleRejections | types/environment.pb.go:313-346 | 08 01, 00, 0c, 26 and 0a 05 61 are rejected with wrong wire type, illegal tag, end group, illegal wire type and unexpected EOF |
| Findings.SliceEndAsWritten | types/environment.pb.go:343-347 | the bound check as written: the slice panics exactly when start + count passes the largest int; otherwise a sum past the buffer is EOF, and the slice ends at start + count |
| Findings.SliceEndAgrees | types/environment.pb.go:343-346 | while the sum fits an int, the check as written and the corrected one agree in both directions |
| Findings.SliceEndWraps | types/environment.pb.go:343-347 | past the largest int, the code as written panics where the corrected check reports an invalid length |
| Findings.GroupResumeAsWritten | types/environment.pb.go:514 | `iNdEx = start + next` as written, with no check: the plain sum while it fits an int, a negative position once it passes the largest int |
| Findings.GroupResumeWraps | types/environment.pb.go:510-514 | a negative nested count sends the group loop as written to a negative index; the corrected loop rejects it |
| Findings.GroupResumeAgrees | types/environment.pb.go:514 | for a non-negative count whose sum fits, the two agree |
| Findings.StringLengthWraps | types/environment.pb.go:339-347 | for 0a ff ff ff ff ff ff ff ff 7f, the code as written panics and the model stops with an invalid length |
| Findings.NestedCountWraps | types/environment.pb.go:467-487 | a nested length within ten of the largest int is counted as a negative number of bytes |
| Findings.NestedFieldWraps | types/environment.pb.go:467-487 | field 1 of wire type 2 at position 1 with a nine-byte length near the largest int: the skipper returns 10 + length - 2^64, a negative count, with no error |
| Findings.GroupSkipRejected | types/environment.pb.go:488-516 | that group is rejected as an invalid length by the corrected skipper |
| Findings.GroupCountWraps | types/environment.pb.go:488-516 | for 23 0a ff ff ff ff ff ff ff ff 7f, the group loop as written resumes at a negative index; the model stops with an invalid length |
| Findings.UnknownCountWraps | types/environment.pb.go:409-419 | for 0a 01 41 22 followed by a nine-byte length, the code as written panics; the model stops with an invalid length after field 1 is set |
| Findings.UnknownTailWraps | types/environment.pb.go:408-419 | for 0a 01 41 22 followed by any nine-byte length from 2^63 - 13 to 2^63 - 11, the unknown field at 3 is counted 10 + length bytes, 3 plus that count passes the largest int, and decoding stops with an invalid length after field 1 is set |
| Findings.TailFieldWraps | types/environment.pb.go:408-419 | a field 22 with such a length at position 3 of a 13-byte buffer is counted 10 + length bytes, and the decoding loop stops there with an invalid length and the record unchanged |
| Populate.EncodeVarintPopulate | types/environment.pb.go:249-256 | appending the varint of v to a byte slice appends exactly VarintBytes(v) |
| Populate.RandRune | types/environment.pb.go:194-202 | each of the 62 draws gives an ASCII digit or letter |
| Populate.RuneIndex | types/environment.pb.go:194-202 | the draw behind a digit or letter is one of the 62 |
| Populate.RandRuneBijective | types/environment.pb.go:194-202 | the rune map is a bijection from the 62 draws onto the ASCII digits and letters |
| Populate.RuneString | types/environment.pb.go:203-210 | a random string has the drawn length, below 100, and holds only ASCII digits and letters |
| Populate.RandString | types/environment.pb.go:203-210 | the fill loop returns the string of the runes drawn, in order |
| Populate.PopulateKey | types/environment.pb.go:224 | the key wraps at 32 bits; below 2^29 it is number * 8 + wire |
| Populate.DrawnVarint | types/environment.pb.go:227-231 | the varint value is the drawn Int63 when the coin is not 0; when the coin is 0 it is 2^64 minus a non-zero draw (at least 2^63), and 0 for a zero draw |
| Populate.DrawnField | types/environment.pb.go:223-248 | the field randFieldEnvironment writes carries the field number it was given |
| Populate.AppendDrawnBytes | types/environment.pb.go:240-242 | the byte loop of wire type 2 appends exactly the drawn bytes, in order, to the buffer |
| Populate.DrawnFields | types/environment.pb.go:211-221 | randUnrecognizedEnvironment writes one field per draw |
| Populate.DrawnFieldsNumbered | types/environment.pb.go:211-221 | the i-th field written is numbered maxFieldNumber plus the i-th drawn offset |
| Populate.RandField | types/environment.pb.go:223-248 | randFieldEnvironment appends the key varint and the payload of the field drawn |
| Populate.DrawnPayload | types/environment.pb.go:223-248 | the payload by wire type: a varint, a length and bytes, or 8 or 4 raw bytes |
| Populate.RandFieldEncoding | types/environment.pb.go:223-248 | for the wire types used and numbers below 2^29, the appended bytes are a well-formed field whose tag is the key |
| Populate.DrawnWire | types/environment.pb.go:214-217 | the wire draw gives only wire types 0, 1, 2 and 5 |
| Populate.DrawnFieldsUnknown | types/environment.pb.go:211-222 | with maxFieldNumber 4, every generated field is well-formed and numbered 4 or more |
| Populate.RandUnrecognized | types/environment.pb.go:211-222 | randUnrecognizedEnvironment returns the concatenation of the drawn fields' encodings |
| Populate.PopulatedTail | types/environment.pb.go:178-180 | the generated tail consists only of well-formed unknown fields |
| Populate.PopulatedValue | types/environment.pb.go:174-183 | a generated record has strings shorter than 100 bytes and an unrecognized tail of well-formed unknown fields |
| Populate.NewPopulatedEnvironment | types/environment.pb.go:174-183 | the new record holds the drawn strings and, unless easy or the draw is 0, the generated tail |
| Populate.PopulatedRoundTrip | types/environment.pb.go:174-183 | every record the generator builds is at most 743 bytes encoded, and decodes back Equal to itself |

## Left out

- `String`, `ProtoMessage`, `Descriptor`, the `XXX_` methods, `init` and the gzipped file descriptor: they delegate to the external protobuf library or are opaque data.
- `Equal`'s interface dispatch (`that` as value or pointer, and the nil cases at lines 94-111): equality is modelled on the record's value.
- The nil and the empty `XXX_unrecognized` are both the empty sequence: Size, MarshalTo and `bytes.Equal` cannot tell them apart.
- The random source `randyEnvironment`: the generators take the values it would hand out as parameters. The runes of `randStringEnvironment` are ASCII, so the Go string holds one byte per rune.
- Marshal's `err != nil` branch: MarshalTo never returns an error.
- Unmarshal's final `iNdEx > l` check (lines 424-426): every pass stays within the buffer, so it cannot fire.
- skipEnvironment's `panic("unreachable")` on an empty slice: Unmarshal and the group loop only call it where a tag was read, so the model requires a non-empty slice.
- The error messages of `fmt.Errorf` are constructors that carry the formatted values, not the text.
- RoundTrip.RoundTrip: covers unknown tails of wire types 0, 1, 2 and 5, the ones `randUnrecognizedEnvironment` builds. Groups are modelled and their framing and rejection are proved, but not a round trip through a group.
- Varint.EncodeVarint: requires room for the varint in the array. Go indexes past the end of a short buffer and panics; Marshal always allocates Size bytes, so that panic is not modelled.
- EnvironmentPb.Environment.MarshalTo: requires a buffer at least Size bytes long, for the same reason; the panic on a shorter one is not modelled.
- Rejection.TruncatedFieldRejected: requires the uncut field to end at or below the largest int, which any real buffer satisfies.

## Findings

| source | as written | input that shows it | evidently intended | confidence | as-written member | corrected member |
|---|---|---|---|---|---|---|
| types/environment.pb.go:343-347 | `postIndex := iNdEx + intStringLen` wraps negative for a length near 2^63. The check `postIndex > l` passes it, and `dAtA[iNdEx:postIndex]` panics. The same code is at :372-376 and :401-405. | 0a ff ff ff ff ff ff ff ff 7f | reject the field with ErrInvalidLengthEnvironment | not executed | Findings.SliceEndAsWritten, Findings.StringLengthWraps | Decoding.SliceEnd |
| types/environment.pb.go:416-419 | skipEnvironment counts the field at position 3 as 2^63 - 1 bytes. `iNdEx + skippy` wraps negative, the check `> l` passes it, and the slice panics. | 0a 01 41 22 f5 ff ff ff ff ff ff ff 7f | reject the field with ErrInvalidLengthEnvironment | not executed | Findings.SliceEndAsWritten, Findings.UnknownCountWraps | Decoding.SliceEnd |
| types/environment.pb.go:510-514 | In a group, a nested length near 2^63 makes skipEnvironment return a negative count with no error (:483-487). `iNdEx = start + next` is then negative, and `dAtA[iNdEx]` at :499 panics. | 23 0a ff ff ff ff ff ff ff ff 7f | reject the group with ErrInvalidLengthEnvironment | not executed | Findings.GroupResumeAsWritten, Findings.GroupCountWraps | Skipping.GroupResume |

/**
 * Well-formed fields that the Environment schema does not know, as
 * randUnrecognizedEnvironment builds them: a field number below 2^29 and a
 * payload of wire type 0, 1, 2 or 5. Their bytes on the wire, and the proof
 * that skipEnvironment frames each of them exactly.
 */
module UnknownFields {
  import opened Wire
  import opened Varint
  import opened Skipping

  const TWO29 := 0x2000_0000

  /** The payload of an unknown field, one alternative per wire type. */
  datatype WireValue =
    | VarintValue(v: uint64)          // wire type 0
    | Fixed64Value(bytes: seq<byte>)  // wire type 1, eight bytes
    | BytesValue(bytes: seq<byte>)    // wire type 2, length-delimited
    | Fixed32Value(bytes: seq<byte>)  // wire type 5, four bytes

  datatype UnknownField = UnknownField(number: nat, value: WireValue)

  function WireTypeOf(v: WireValue): nat
  {
    match v
    case VarintValue(_) => 0
    case Fixed64Value(_) => 1
    case BytesValue(_) => 2
    case Fixed32Value(_) => 5
  }

  /** The tag `(number << 3) | wire type` of a field. */
  function TagOf(f: UnknownField): (tag: nat)
  {
    f.number * 8 + WireTypeOf(f.value)
  }

  /** A field number that fits the tag's 29 bits, and the fixed widths right. */
  predicate ValidField(f: UnknownField)
  {
    && f.number < TWO29
    && (f.value.Fixed64Value? ==> |f.value.bytes| == 8)
    && (f.value.Fixed32Value? ==> |f.value.bytes| == 4)
  }

  /** A field Unmarshal hands to skipEnvironment: a number the schema does not know. */
  predicate ValidUnknown(f: UnknownField)
  {
    ValidField(f) && f.number >= 4
  }

  /** The bytes after the tag: the varint, the fixed bytes, or the length and the bytes. */
  function Payload(f: UnknownField): (r: seq<byte>)
  {
    match f.value
    case VarintValue(v) => VarintBytes(v)
    case BytesValue(b) => VarintBytes(|b|) + b
    case Fixed64Value(b) => b
    case Fixed32Value(b) => b
  }

  /** The bytes of one field: its tag, then the payload its wire type frames. */
  function FieldEncoding(f: UnknownField): (r: seq<byte>)
  {
    VarintBytes(TagOf(f)) + Payload(f)
  }

  /** Fields one after another. */
  function Concat(fs: seq<UnknownField>): (r: seq<byte>)
  {
    if |fs| == 0 then [] else FieldEncoding(fs[0]) + Concat(fs[1..])
  }

  lemma {:induction false} ConcatAppend(fs: seq<UnknownField>, gs: seq<UnknownField>)
    ensures Concat(fs + gs) == Concat(fs) + Concat(gs)
    decreases |fs|
  {
    if |fs| > 0 {
      var hs := fs + gs;
      assert hs[0] == fs[0] && hs[1..] == fs[1..] + gs;
      ConcatAppend(fs[1..], gs);
      calc {
        Concat(hs);
        FieldEncoding(fs[0]) + Concat(fs[1..] + gs);
        FieldEncoding(fs[0]) + (Concat(fs[1..]) + Concat(gs));
        (FieldEncoding(fs[0]) + Concat(fs[1..])) + Concat(gs);
      }
    } else {
      assert fs + gs == gs;
    }
  }

  /** The tag of a valid field is below 2^32 and carries its wire type in the low three bits. */
  lemma TagBounds(f: UnknownField)
    requires f.number < TWO29
    ensures TagOf(f) < TWO32
    ensures TagOf(f) % 8 == WireTypeOf(f.value) && TagOf(f) / 8 == f.number
  {
  }

  /** The number of bytes of a field, as a sum of varint sizes and payload lengths. */
  function Size(f: UnknownField): nat
  {
    VarintSize(TagOf(f))
      + match f.value
        case VarintValue(v) => VarintSize(v)
        case BytesValue(b) => VarintSize(|b|) + |b|
        case Fixed64Value(b) => |b|
        case Fixed32Value(b) => |b|
  }

  /** Size counts the bytes of the encoding. */
  lemma SizeIsLength(f: UnknownField)
    ensures Size(f) == |FieldEncoding(f)|
  {
  }

  /** Wire type 0: a tag varint from base to p, then a value varint from p to e. */
  lemma SkipVarintSpelled(data: seq<byte>, base: nat, p: nat, e: nat, t: uint64, v: uint64, n: nat)
    requires p == base + VarintSize(t) && e == p + VarintSize(v) && t % 8 == 0
    requires e <= |data| <= MaxInt && n == e - base
    requires Spells(data, base, VarintBytes(t)) && Spells(data, p, VarintBytes(v))
    ensures ReadVarint(data, base) == Ok((t, p))
    ensures SkipField(data, base) == Ok(n)
  {
    ReadVarintSpelled(data, base, p, t);
    ReadVarintSpelled(data, p, e, v);
    SkipFramingVarintOk(data, base, t, p, v, e, n);
  }

  /** Wire type 2: a tag varint from base to p, a length varint from p to q and that many bytes. */
  lemma SkipBytesSpelled(data: seq<byte>, base: nat, p: nat, q: nat, t: uint64, len: uint64, n: nat)
    requires p == base + VarintSize(t) && q == p + VarintSize(len) && t % 8 == 2
    requires q + len <= |data| <= MaxInt && n == q - base + len
    requires Spells(data, base, VarintBytes(t)) && Spells(data, p, VarintBytes(len))
    ensures ReadVarint(data, base) == Ok((t, p))
    ensures SkipField(data, base) == Ok(n)
  {
    ReadVarintSpelled(data, base, p, t);
    ReadVarintSpelled(data, p, q, len);
    SkipFramingBytes(data, base, t, p, len, q, n);
  }

  /** Wire types 1 and 5: a tag varint from base to p, then eight or four bytes. */
  lemma SkipFixedSpelled(data: seq<byte>, base: nat, p: nat, t: uint64, width: nat, n: nat)
    requires p == base + VarintSize(t) && ((t % 8 == 1 && width == 8) || (t % 8 == 5 && width == 4))
    requires p + width <= |data| <= MaxInt && n == p - base + width
    requires Spells(data, base, VarintBytes(t))
    ensures ReadVarint(data, base) == Ok((t, p))
    ensures SkipField(data, base) == Ok(n)
  {
    ReadVarintSpelled(data, base, p, t);
    SkipFramingFixed(data, base, t, p, width, n);
  }

  /** The bytes of a field spelled at base: its tag varint, then its payload. */
  lemma TagPieces(data: seq<byte>, base: nat, f: UnknownField, p: nat)
    requires ValidField(f) && Spells(data, base, FieldEncoding(f)) && p == base + VarintSize(TagOf(f))
    ensures TagOf(f) < TWO32 && TagOf(f) % 8 == WireTypeOf(f.value)
    ensures Spells(data, base, VarintBytes(TagOf(f))) && Spells(data, p, Payload(f))
  {
    TagBounds(f);
    SpellsSplit(data, base, VarintBytes(TagOf(f)), Payload(f), p);
  }

  lemma SkipVarintField(data: seq<byte>, base: nat, f: UnknownField)
    requires ValidField(f) && f.value.VarintValue?
    requires base + Size(f) <= |data| <= MaxInt
    requires Spells(data, base, FieldEncoding(f))
    ensures ReadVarint(data, base) == Ok((TagOf(f), base + VarintSize(TagOf(f))))
    ensures SkipField(data, base) == Ok(Size(f))
  {
    var p := base + VarintSize(TagOf(f));
    TagPieces(data, base, f, p);
    assert Payload(f) == VarintBytes(f.value.v);
    SkipVarintSpelled(data, base, p, p + VarintSize(f.value.v), TagOf(f), f.value.v, Size(f));
  }

  lemma SkipBytesField(data: seq<byte>, base: nat, f: UnknownField)
    requires ValidField(f) && f.value.BytesValue?
    requires base + Size(f) <= |data| <= MaxInt
    requires Spells(data, base, FieldEncoding(f))
    ensures ReadVarint(data, base) == Ok((TagOf(f), base + VarintSize(TagOf(f))))
    ensures SkipField(data, base) == Ok(Size(f))
  {
    var p := base + VarintSize(TagOf(f));
    var b := f.value.bytes;
    TagPieces(data, base, f, p);
    assert Payload(f) == VarintBytes(|b|) + b;
    SpellsSplit(data, p, VarintBytes(|b|), b, p + VarintSize(|b|));
    SkipBytesSpelled(data, base, p, p + VarintSize(|b|), TagOf(f), |b|, Size(f));
  }

  lemma SkipFixedField(data: seq<byte>, base: nat, f: UnknownField)
    requires ValidField(f) && (f.value.Fixed64Value? || f.value.Fixed32Value?)
    requires base + Size(f) <= |data| <= MaxInt
    requires Spells(data, base, FieldEncoding(f))
    ensures ReadVarint(data, base) == Ok((TagOf(f), base + VarintSize(TagOf(f))))
    ensures SkipField(data, base) == Ok(Size(f))
  {
    var p := base + VarintSize(TagOf(f));
    TagPieces(data, base, f, p);
    SkipFixedSpelled(data, base, p, TagOf(f), |f.value.bytes|, Size(f));
  }

  /**
   * skipEnvironment on the slice starting at a well-formed field returns the
   * field's length, whatever follows it; the field's tag is read first.
   */
  lemma SkipFieldEncoded(data: seq<byte>, base: nat, f: UnknownField)
    requires ValidField(f)
    requires base + Size(f) <= |data| <= MaxInt
    requires Spells(data, base, FieldEncoding(f))
    ensures ReadVarint(data, base) == Ok((TagOf(f), base + VarintSize(TagOf(f))))
    ensures SkipField(data, base) == Ok(Size(f))
  {
    if f.value.VarintValue? {
      SkipVarintField(data, base, f);
    } else if f.value.BytesValue? {
      SkipBytesField(data, base, f);
    } else {
      SkipFixedField(data, base, f);
    }
  }
}

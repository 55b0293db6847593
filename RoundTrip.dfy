/**
 * Unmarshal undoes MarshalTo. Decoding the encoding of m into a record that
 * holds m0 gives Merge(m0, m) with no error, whatever fields m's
 * unrecognized bytes carry, as long as they are well-formed fields with
 * numbers the schema does not know. The proof goes field by field through
 * the decoding loop: each known string is read back by the string case, and
 * each unknown field by the skipper, which keeps the field's bytes verbatim.
 */
module RoundTrip {
  import opened Wire
  import opened Varint
  import opened Record
  import opened Skipping
  import opened UnknownFields
  import opened Encoding
  import opened Decoding

  predicate AllUnknown(fs: seq<UnknownField>)
  {
    forall i :: 0 <= i < |fs| ==> ValidUnknown(fs[i])
  }

  /** A one-byte tag spelled at pos reads back as itself. */
  lemma TagRead(data: seq<byte>, pos: nat, tag: byte)
    requires tag < 128 && Spells(data, pos, [tag])
    ensures ReadVarint(data, pos) == Ok((tag, pos + 1))
  {
    assert VarintBytes(tag) == [tag];
    ReadVarintSpelled(data, pos, pos + 1, tag);
  }

  /** The string case after a tag ending at p: the varint length of s, then s. */
  lemma ReadStringSpelled(data: seq<byte>, p: nat, q: nat, e: nat, s: seq<byte>)
    requires q == p + VarintSize(|s|) && e == q + |s| && e <= |data| <= MaxInt
    requires Spells(data, p, VarintBytes(|s|)) && data[q..e] == s
    ensures ReadString(data, p) == Ok((s, e))
  {
    ReadVarintSpelled(data, p, q, |s|);
  }

  /** A pass of the loop at a tag of field 1, 2 or 3 with wire type 2 assigns the string that follows. */
  lemma KnownStep(data: seq<byte>, pos: nat, tag: uint64, p: nat, s: seq<byte>, e: nat, m: EnvironmentValue)
    requires pos < |data| <= MaxInt
    requires ReadVarint(data, pos) == Ok((tag, p)) && (tag == 0x0a || tag == 0x12 || tag == 0x1a)
    requires ReadString(data, p) == Ok((s, e))
    ensures UnmarshalStep(data, pos, m) == Continue(e, SetField(m, tag / 8, s))
  {
  }

  /**
   * A string field written out in full, tag, varint length and bytes, even
   * for the empty string (which MarshalTo omits but a buffer may contain).
   */
  function Occurrence(tag: byte, s: seq<byte>): (r: seq<byte>)
    ensures |r| == 1 + VarintSize(|s|) + |s|
  {
    [tag] + VarintBytes(|s|) + s
  }

  /** A pass of the loop at a string field written out in full assigns its string, empty or not. */
  lemma OccurrenceSpelled(data: seq<byte>, pos: nat, tag: byte, s: seq<byte>, m: EnvironmentValue)
    requires tag == DescriptionTag || tag == NameTag || tag == OrganizationTag
    requires |data| <= MaxInt && Spells(data, pos, Occurrence(tag, s))
    ensures pos < |data|
    ensures UnmarshalStep(data, pos, m) == Continue(pos + |Occurrence(tag, s)|, SetField(m, tag / 8, s))
  {
    var q := pos + 1 + VarintSize(|s|);
    var e := q + |s|;
    SpellsSplit(data, pos, [tag] + VarintBytes(|s|), s, q);
    SpellsSplit(data, pos, [tag], VarintBytes(|s|), pos + 1);
    SpellsWindow(data, q, s);
    TagRead(data, pos, tag);
    ReadStringSpelled(data, pos + 1, q, e, s);
    KnownStep(data, pos, tag, pos + 1, s, e, m);
  }

  /** A pass of the loop at a non-empty string field as MarshalTo writes it. */
  lemma KnownFieldSpelled(data: seq<byte>, pos: nat, tag: byte, s: seq<byte>, m: EnvironmentValue)
    requires tag == DescriptionTag || tag == NameTag || tag == OrganizationTag
    requires 0 < |s| && |data| <= MaxInt && Spells(data, pos, FieldBytes(tag, s))
    ensures pos < |data|
    ensures UnmarshalStep(data, pos, m) == Continue(pos + |FieldBytes(tag, s)|, SetField(m, tag / 8, s))
  {
    assert FieldBytes(tag, s) == Occurrence(tag, s);
    OccurrenceSpelled(data, pos, tag, s, m);
  }

  /** A pass of the loop that goes on leaves the rest of the decoding to the next position. */
  lemma DecodeContinue(data: seq<byte>, pos: nat, m: EnvironmentValue, next: nat, m': EnvironmentValue)
    requires pos < |data| <= MaxInt
    requires UnmarshalStep(data, pos, m) == Continue(next, m')
    ensures next <= |data|
    ensures DecodeFrom(data, pos, m) == DecodeFrom(data, next, m')
  {
  }

  /** What one string field as MarshalTo writes it leaves in the record: nothing changes for the empty string. */
  function AfterField(m: EnvironmentValue, tag: byte, s: seq<byte>): EnvironmentValue
  {
    if |s| > 0 then SetField(m, tag / 8, s) else m
  }

  /** A string field as MarshalTo writes it: nothing for the empty string, else one pass that assigns it. */
  lemma KnownFieldDecode(data: seq<byte>, pos: nat, tag: byte, s: seq<byte>, m: EnvironmentValue, next: nat)
    requires tag == DescriptionTag || tag == NameTag || tag == OrganizationTag
    requires |data| <= MaxInt && Spells(data, pos, FieldBytes(tag, s)) && next == pos + |FieldBytes(tag, s)|
    ensures DecodeFrom(data, pos, m) == DecodeFrom(data, next, AfterField(m, tag, s))
  {
    if |s| > 0 {
      KnownFieldSpelled(data, pos, tag, s, m);
      DecodeContinue(data, pos, m, next, SetField(m, tag / 8, s));
    }
  }

  /** The record with the bytes u appended to its unrecognized ones. */
  function Append(m: EnvironmentValue, u: seq<byte>): EnvironmentValue
  {
    m.(unrecognized := m.unrecognized + u)
  }

  /**
   * A pass of the loop at a well-formed unknown field f, once its tag is
   * read and the skipper has counted its bytes: they are appended verbatim.
   */
  lemma UnknownStep(data: seq<byte>, pos: nat, f: UnknownField, next: nat, m: EnvironmentValue)
    requires ValidUnknown(f) && pos < |data| <= MaxInt
    requires ReadVarint(data, pos) == Ok((TagOf(f), pos + VarintSize(TagOf(f))))
    requires SkipField(data, pos) == Ok(Size(f))
    requires next == pos + Size(f) <= |data| && FieldEncoding(f) == data[pos..next]
    ensures UnmarshalStep(data, pos, m) == Continue(next, Append(m, FieldEncoding(f)))
  {
    TagBounds(f);
  }

  /** What the skipper finds at a well-formed unknown field: its tag, then its length. */
  lemma UnknownFieldSkip(data: seq<byte>, pos: nat, f: UnknownField, next: nat)
    requires ValidUnknown(f) && |data| <= MaxInt && Spells(data, pos, FieldEncoding(f)) && next == pos + Size(f)
    ensures pos < next <= |data|
    ensures ReadVarint(data, pos) == Ok((TagOf(f), pos + VarintSize(TagOf(f))))
    ensures SkipField(data, pos) == Ok(Size(f))
  {
    SizeIsLength(f);
    SkipFieldEncoded(data, pos, f);
  }

  /** The bytes of a field spelled at pos are the window from pos of its size. */
  lemma FieldWindow(data: seq<byte>, pos: nat, f: UnknownField, next: nat)
    requires Spells(data, pos, FieldEncoding(f)) && next == pos + Size(f)
    ensures next <= |data| && FieldEncoding(f) == data[pos..next]
  {
    SizeIsLength(f);
    SpellsWindow(data, pos, FieldEncoding(f));
  }

  /** One pass of the loop at a well-formed unknown field appends its bytes. */
  lemma UnknownFieldStep(data: seq<byte>, pos: nat, f: UnknownField, m: EnvironmentValue, next: nat)
    requires ValidUnknown(f) && |data| <= MaxInt && Spells(data, pos, FieldEncoding(f)) && next == pos + Size(f)
    ensures pos < next <= |data|
    ensures UnmarshalStep(data, pos, m) == Continue(next, Append(m, FieldEncoding(f)))
  {
    FieldWindow(data, pos, f, next);
    UnknownFieldSkip(data, pos, f, next);
    UnknownStep(data, pos, f, next, m);
  }

  /** One well-formed unknown field is decoded by appending its bytes to the unrecognized ones. */
  lemma UnknownFieldDecode(data: seq<byte>, pos: nat, f: UnknownField, m: EnvironmentValue, next: nat)
    requires ValidUnknown(f) && |data| <= MaxInt && Spells(data, pos, FieldEncoding(f)) && next == pos + Size(f)
    ensures next <= |data|
    ensures DecodeFrom(data, pos, m) == DecodeFrom(data, next, Append(m, FieldEncoding(f)))
  {
    UnknownFieldStep(data, pos, f, m, next);
    DecodeContinue(data, pos, m, next, Append(m, FieldEncoding(f)));
  }

  /** The first field of a run and the rest: where the rest starts, that it is well-formed, and what it spells. */
  lemma UnknownsHead(data: seq<byte>, pos: nat, fs: seq<UnknownField>, m: EnvironmentValue, next: nat)
    requires |fs| > 0 && AllUnknown(fs) && Spells(data, pos, Concat(fs)) && next == pos + Size(fs[0])
    ensures ValidUnknown(fs[0]) && AllUnknown(fs[1..])
    ensures Spells(data, pos, FieldEncoding(fs[0])) && Spells(data, next, Concat(fs[1..]))
    ensures next + |Concat(fs[1..])| == pos + |Concat(fs)|
    ensures Append(Append(m, FieldEncoding(fs[0])), Concat(fs[1..])) == Append(m, Concat(fs))
  {
    SizeIsLength(fs[0]);
    SpellsSplit(data, pos, FieldEncoding(fs[0]), Concat(fs[1..]), next);
    assert AllUnknown(fs[1..]) by {
      forall i | 0 <= i < |fs[1..]| ensures ValidUnknown(fs[1..][i]) {
        assert fs[1..][i] == fs[i + 1];
      }
    }
    assert (m.unrecognized + FieldEncoding(fs[0])) + Concat(fs[1..]) == m.unrecognized + Concat(fs);
  }

  /** A run of well-formed unknown fields, spelling u, is appended to the unrecognized bytes as it stands. */
  lemma {:induction false} UnknownsDecode(data: seq<byte>, pos: nat, fs: seq<UnknownField>, u: seq<byte>,
                                          m: EnvironmentValue, end: nat, m': EnvironmentValue)
    requires u == Concat(fs) && AllUnknown(fs) && |data| <= MaxInt && Spells(data, pos, u)
    requires end == pos + |u| && m' == Append(m, u)
    ensures DecodeFrom(data, pos, m) == DecodeFrom(data, end, m')
    decreases |fs|
  {
    if |fs| == 0 {
      assert m' == m by {
        assert m.unrecognized + u == m.unrecognized;
      }
    } else {
      var next := pos + Size(fs[0]);
      UnknownsHead(data, pos, fs, m, next);
      UnknownFieldDecode(data, pos, fs[0], m, next);
      UnknownsDecode(data, next, fs[1..], Concat(fs[1..]), Append(m, FieldEncoding(fs[0])), end, m');
    }
  }

  /** Where each part of the encoding of m starts when it is found at pos. */
  lemma EncodeLayout(data: seq<byte>, pos: nat, m: EnvironmentValue, p1: nat, p2: nat, p3: nat)
    requires Spells(data, pos, Encode(m))
    requires p1 == pos + |FieldBytes(DescriptionTag, m.description)|
    requires p2 == p1 + |FieldBytes(NameTag, m.name)|
    requires p3 == p2 + |FieldBytes(OrganizationTag, m.organization)|
    ensures Spells(data, pos, FieldBytes(DescriptionTag, m.description))
    ensures Spells(data, p1, FieldBytes(NameTag, m.name))
    ensures Spells(data, p2, FieldBytes(OrganizationTag, m.organization))
    ensures Spells(data, p3, m.unrecognized) && p3 + |m.unrecognized| == pos + |Encode(m)|
  {
    var d := FieldBytes(DescriptionTag, m.description);
    var n := FieldBytes(NameTag, m.name);
    var o := FieldBytes(OrganizationTag, m.organization);
    SpellsSplit(data, pos, d + n + o, m.unrecognized, p3);
    SpellsSplit(data, pos, d + n, o, p2);
    SpellsSplit(data, pos, d, n, p1);
  }

  /** The three string fields, then the unknown ones, leave Merge(m0, m). */
  lemma MergeSteps(m0: EnvironmentValue, m: EnvironmentValue)
    ensures Append(AfterField(AfterField(AfterField(m0, DescriptionTag, m.description), NameTag, m.name),
                              OrganizationTag, m.organization), m.unrecognized)
         == Merge(m0, m)
  {
  }

  /** The three string fields of the encoding of m, found at pos, decode one after another into m0. */
  lemma KnownFieldsDecode(data: seq<byte>, pos: nat, m0: EnvironmentValue, m: EnvironmentValue, p3: nat,
                          m3: EnvironmentValue)
    requires |data| <= MaxInt && Spells(data, pos, Encode(m))
    requires p3 == pos + |FieldBytes(DescriptionTag, m.description)| + |FieldBytes(NameTag, m.name)|
                   + |FieldBytes(OrganizationTag, m.organization)|
    requires m3 == AfterField(AfterField(AfterField(m0, DescriptionTag, m.description), NameTag, m.name),
                              OrganizationTag, m.organization)
    ensures Spells(data, p3, m.unrecognized) && p3 + |m.unrecognized| == pos + |Encode(m)|
    ensures DecodeFrom(data, pos, m0) == DecodeFrom(data, p3, m3)
  {
    var p1 := pos + |FieldBytes(DescriptionTag, m.description)|;
    var p2 := p1 + |FieldBytes(NameTag, m.name)|;
    EncodeLayout(data, pos, m, p1, p2, p3);
    var m1 := AfterField(m0, DescriptionTag, m.description);
    var m2 := AfterField(m1, NameTag, m.name);
    KnownFieldDecode(data, pos, DescriptionTag, m.description, m0, p1);
    KnownFieldDecode(data, p1, NameTag, m.name, m1, p2);
    KnownFieldDecode(data, p2, OrganizationTag, m.organization, m2, p3);
  }

  /**
   * The encoding of m, found at pos, is decoded into m0 as Merge(m0, m), and
   * decoding goes on just after it, at end.
   */
  lemma EncodedDecode(data: seq<byte>, pos: nat, m0: EnvironmentValue, m: EnvironmentValue, fs: seq<UnknownField>,
                      end: nat, r: EnvironmentValue)
    requires m.unrecognized == Concat(fs) && AllUnknown(fs)
    requires |data| <= MaxInt && Spells(data, pos, Encode(m))
    requires end == pos + |Encode(m)| && r == Merge(m0, m)
    ensures end <= |data|
    ensures DecodeFrom(data, pos, m0) == DecodeFrom(data, end, r)
  {
    var p3 := pos + |FieldBytes(DescriptionTag, m.description)| + |FieldBytes(NameTag, m.name)|
                  + |FieldBytes(OrganizationTag, m.organization)|;
    var m3 := AfterField(AfterField(AfterField(m0, DescriptionTag, m.description), NameTag, m.name),
                         OrganizationTag, m.organization);
    KnownFieldsDecode(data, pos, m0, m, p3, m3);
    MergeSteps(m0, m);
    UnknownsDecode(data, p3, fs, m.unrecognized, m3, end, r);
  }

  lemma SpellsWhole(data: seq<byte>)
    ensures Spells(data, 0, data)
  {
  }

  /** The end of the buffer ends the loop with no error. */
  lemma DecodeAtEnd(data: seq<byte>, end: nat, r: EnvironmentValue)
    requires end == |data| <= MaxInt
    ensures DecodeFrom(data, end, r) == Outcome(r, None)
  {
  }

  /** Unmarshal of Marshal's bytes into a record holding m0 merges m into it and reports no error. */
  lemma DecodeEncoded(m0: EnvironmentValue, m: EnvironmentValue, fs: seq<UnknownField>)
    requires m.unrecognized == Concat(fs) && AllUnknown(fs) && |Encode(m)| <= MaxInt
    ensures Decode(m0, Encode(m)) == Outcome(Merge(m0, m), None)
  {
    SpellsWhole(Encode(m));
    EncodedDecode(Encode(m), 0, m0, m, fs, |Encode(m)|, Merge(m0, m));
    DecodeAtEnd(Encode(m), |Encode(m)|, Merge(m0, m));
  }

  /** Into a fresh record, Unmarshal of Marshal's bytes gives back an Equal record. */
  lemma RoundTrip(m: EnvironmentValue, fs: seq<UnknownField>)
    requires m.unrecognized == Concat(fs) && AllUnknown(fs) && |Encode(m)| <= MaxInt
    ensures Decode(Empty, Encode(m)) == Outcome(m, None)
    ensures Equal(Decode(Empty, Encode(m)).record, m)
  {
    DecodeEncoded(Empty, m, fs);
  }

  /**
   * Two encodings one after the other decode as the merge of the two
   * records: strings of the second that are set win, and the unrecognized
   * bytes of both are kept in order.
   */
  lemma DecodeConcatenation(m0: EnvironmentValue, a: EnvironmentValue, fa: seq<UnknownField>,
                            b: EnvironmentValue, fb: seq<UnknownField>)
    requires a.unrecognized == Concat(fa) && AllUnknown(fa)
    requires b.unrecognized == Concat(fb) && AllUnknown(fb)
    requires |Encode(a) + Encode(b)| <= MaxInt
    ensures Decode(m0, Encode(a) + Encode(b)) == Outcome(Merge(m0, Merge(a, b)), None)
  {
    var data := Encode(a) + Encode(b);
    SpellsWhole(data);
    SpellsSplit(data, 0, Encode(a), Encode(b), |Encode(a)|);
    EncodedDecode(data, 0, m0, a, fa, |Encode(a)|, Merge(m0, a));
    EncodedDecode(data, |Encode(a)|, Merge(m0, a), b, fb, |data|, Merge(Merge(m0, a), b));
    DecodeAtEnd(data, |data|, Merge(Merge(m0, a), b));
    MergeAssociative(m0, a, b);
  }

  /**
   * A known field that occurs twice is assigned twice, so the second
   * occurrence is the one the record keeps, even when it is the empty string.
   */
  lemma LastOccurrenceWins(m0: EnvironmentValue, tag: byte, s1: seq<byte>, s2: seq<byte>)
    requires tag == DescriptionTag || tag == NameTag || tag == OrganizationTag
    requires |Occurrence(tag, s1) + Occurrence(tag, s2)| <= MaxInt
    ensures Decode(m0, Occurrence(tag, s1) + Occurrence(tag, s2)) == Outcome(SetField(m0, tag / 8, s2), None)
  {
    var data := Occurrence(tag, s1) + Occurrence(tag, s2);
    var mid := |Occurrence(tag, s1)|;
    var m1 := SetField(m0, tag / 8, s1);
    SpellsWhole(data);
    SpellsSplit(data, 0, Occurrence(tag, s1), Occurrence(tag, s2), mid);
    OccurrenceSpelled(data, 0, tag, s1, m0);
    DecodeContinue(data, 0, m0, mid, m1);
    OccurrenceSpelled(data, mid, tag, s2, m1);
    DecodeContinue(data, mid, m1, |data|, SetField(m1, tag / 8, s2));
    SetFieldOverwrites(m0, tag / 8, s1, s2);
    DecodeAtEnd(data, |data|, SetField(m0, tag / 8, s2));
  }

  /** A pass of the loop at any tag of wire type 2 whose field number converts to 1, 2 or 3. */
  lemma StringStep(data: seq<byte>, pos: nat, w: uint64, p: nat, s: seq<byte>, e: nat, m: EnvironmentValue)
    requires pos < |data| <= MaxInt
    requires ReadVarint(data, pos) == Ok((w, p)) && w % 8 == 2 && 1 <= Int32Of(w / 8) <= 3
    requires ReadString(data, p) == Ok((s, e))
    ensures UnmarshalStep(data, pos, m) == Continue(e, SetField(m, Int32Of(w / 8), s))
  {
  }

  lemma WrappedNumber(t: int)
    requires t == (TWO32 + 1) * 8 + 2
    ensures t % 8 == 2 && t / 8 == TWO32 + 1 && Int32Of(t / 8) == 1
  {
    assert t == 8 * (TWO32 + 1) + 2;
    assert Int32Of(TWO32 + 1) == 1;
  }

  /**
   * The field number is `int32(wire >> 3)`: a tag whose number is
   * 2^32 + 1 keeps only its low 32 bits, so its string is taken as the
   * description.
   */
  lemma FieldNumberWraps(data: seq<byte>, t: uint64)
    requires t == (TWO32 + 1) * 8 + 2 && data == VarintBytes(t) + [1, 0x41]
    ensures Int32Of(t / 8) == 1 && |data| <= 12
    ensures Decode(Empty, data) == Outcome(EnvironmentValue([0x41], [], [], []), None)
  {
    var p := VarintSize(t);
    VarintSizeOfUint64(t);
    SpellsWhole(data);
    SpellsSplit(data, 0, VarintBytes(t), [1, 0x41], p);
    ReadVarintSpelled(data, 0, p, t);
    SpellsSplit(data, p, [1], [0x41], p + 1);
    SpellsWindow(data, p + 1, [0x41]);
    assert VarintBytes(1) == [1];
    ReadStringSpelled(data, p, p + 1, p + 2, [0x41]);
    WrappedNumber(t);
    StringStep(data, 0, t, p, [0x41], p + 2, Empty);
    DecodeContinue(data, 0, Empty, p + 2, SetField(Empty, 1, [0x41]));
    DecodeAtEnd(data, p + 2, SetField(Empty, 1, [0x41]));
  }

  /** The encoding example of Encoding, read back. */
  lemma ExampleDecoding()
    ensures Decode(Empty, [0x0a, 0x05] + Ascii("svc-a") + [0x1a, 0x07] + Ascii("default"))
         == Outcome(EnvironmentValue(Ascii("svc-a"), [], Ascii("default"), []), None)
  {
    var m := EnvironmentValue(Ascii("svc-a"), [], Ascii("default"), []);
    ExampleEncoding();
    assert Concat([]) == [];
    RoundTrip(m, []);
  }
}

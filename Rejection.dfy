/**
 * The inputs Unmarshal rejects and the error it reports for each: bad
 * tags, wrong wire types, varints that run out or run too long, lengths
 * that are negative or reach past the end, and unknown fields the skipper
 * cannot frame. Each is first stated for one pass of the loop and then for
 * the decoding that reaches it, which stops there with the record as it was.
 */
module Rejection {
  import opened Wire
  import opened Varint
  import opened Record
  import opened Skipping
  import opened Encoding
  import opened Decoding
  import opened UnknownFields
  import opened RoundTrip

  /** A pass of the loop that stops ends the decoding with its error and the record as it stands. */
  lemma DecodeStop(data: seq<byte>, pos: nat, m: EnvironmentValue, e: Error)
    requires pos < |data| <= MaxInt && UnmarshalStep(data, pos, m) == Stop(e)
    ensures DecodeFrom(data, pos, m) == Outcome(m, Some(e))
  {
  }

  /** A tag of wire type 4 is rejected before its field number is looked at. */
  lemma EndGroupRejected(data: seq<byte>, pos: nat, m: EnvironmentValue, w: uint64, p: nat)
    requires pos < |data| <= MaxInt
    requires ReadVarint(data, pos) == Ok((w, p)) && w % 8 == 4
    ensures DecodeFrom(data, pos, m) == Outcome(m, Some(EndGroupForNonGroup))
  {
    DecodeStop(data, pos, m, EndGroupForNonGroup);
  }

  /**
   * A field number that is not positive as an int32 is an illegal tag: field
   * 0, and also numbers from 2^31 on whose low 32 bits read as negative.
   */
  lemma IllegalTagRejected(data: seq<byte>, pos: nat, m: EnvironmentValue, w: uint64, p: nat)
    requires pos < |data| <= MaxInt
    requires ReadVarint(data, pos) == Ok((w, p)) && w % 8 != 4 && Int32Of(w / 8) <= 0
    ensures DecodeFrom(data, pos, m) == Outcome(m, Some(IllegalTag(Int32Of(w / 8), w)))
  {
    DecodeStop(data, pos, m, IllegalTag(Int32Of(w / 8), w));
  }

  /** Field 1, 2 or 3 (after the int32 conversion) with a wire type other than 2 names the field in its error. */
  lemma WrongWireTypeRejected(data: seq<byte>, pos: nat, m: EnvironmentValue, w: uint64, p: nat)
    requires pos < |data| <= MaxInt
    requires ReadVarint(data, pos) == Ok((w, p)) && w % 8 != 4 && w % 8 != 2 && 1 <= Int32Of(w / 8) <= 3
    ensures DecodeFrom(data, pos, m) == Outcome(m, Some(WrongWireType(FieldName(Int32Of(w / 8)), w % 8)))
  {
    DecodeStop(data, pos, m, WrongWireType(FieldName(Int32Of(w / 8)), w % 8));
  }

  /** A tag varint that runs into the end of the buffer is unexpected EOF. */
  lemma TruncatedTagRejected(data: seq<byte>, pos: nat, m: EnvironmentValue)
    requires pos < |data| < pos + 10 && |data| <= MaxInt
    requires forall j :: pos <= j < |data| ==> data[j] >= 128
    ensures DecodeFrom(data, pos, m) == Outcome(m, Some(UnexpectedEOF))
  {
    ReadVarintTruncated(data, pos);
    DecodeStop(data, pos, m, UnexpectedEOF);
  }

  /** A tag varint of ten continuation bytes makes the shift reach 64: integer overflow. */
  lemma OverlongTagRejected(data: seq<byte>, pos: nat, m: EnvironmentValue)
    requires pos + 10 <= |data| <= MaxInt
    requires forall j :: pos <= j < pos + 10 ==> data[j] >= 128
    ensures DecodeFrom(data, pos, m) == Outcome(m, Some(IntegerOverflow))
  {
    ReadVarintTooLong(data, pos);
    DecodeStop(data, pos, m, IntegerOverflow);
  }

  /**
   * The string case after its tag, by the length read from p to q: a length
   * that is negative as a Go int is an invalid length, one that reaches past
   * the buffer is unexpected EOF (or an invalid length when the end is past
   * the largest int), and otherwise the bytes up to the end are the string.
   */
  lemma ReadStringCases(data: seq<byte>, p: nat, len: uint64, q: nat)
    requires p <= |data| <= MaxInt && ReadVarint(data, p) == Ok((len, q))
    ensures len >= TWO63 ==> ReadString(data, p) == Err(InvalidLength)
    ensures len < TWO63 && q + len > MaxInt ==> ReadString(data, p) == Err(InvalidLength)
    ensures len < TWO63 && |data| < q + len <= MaxInt ==> ReadString(data, p) == Err(UnexpectedEOF)
    ensures q + len <= |data| ==> ReadString(data, p) == Ok((data[q..q + len], q + len))
  {
  }

  /** A known string field whose payload cannot be read stops the decoding with the string case's error. */
  lemma KnownFieldRejected(data: seq<byte>, pos: nat, m: EnvironmentValue, w: uint64, p: nat)
    requires pos < |data| <= MaxInt
    requires ReadVarint(data, pos) == Ok((w, p)) && w % 8 == 2 && 1 <= Int32Of(w / 8) <= 3
    requires ReadString(data, p).Err?
    ensures DecodeFrom(data, pos, m) == Outcome(m, Some(ReadString(data, p).error))
  {
    DecodeStop(data, pos, m, ReadString(data, p).error);
  }

  /** An unknown field the skipper rejects (an illegal wire type 6 or 7, say) stops the decoding with that error. */
  lemma UnknownFieldRejected(data: seq<byte>, pos: nat, m: EnvironmentValue, w: uint64, p: nat)
    requires pos < |data| <= MaxInt
    requires ReadVarint(data, pos) == Ok((w, p)) && w % 8 != 4 && Int32Of(w / 8) >= 4
    requires SkipField(data, pos).Err?
    ensures DecodeFrom(data, pos, m) == Outcome(m, Some(SkipField(data, pos).error))
  {
    DecodeStop(data, pos, m, SkipField(data, pos).error);
  }

  /** Wire types 6 and 7 on an unknown field number are illegal wire types. */
  lemma IllegalWireTypeRejected(data: seq<byte>, pos: nat, m: EnvironmentValue, w: uint64, p: nat)
    requires pos < |data| <= MaxInt
    requires ReadVarint(data, pos) == Ok((w, p)) && w % 8 >= 6 && Int32Of(w / 8) >= 4
    ensures DecodeFrom(data, pos, m) == Outcome(m, Some(IllegalWireType(w % 8)))
  {
    SkipFraming(data, pos, w, p);
    UnknownFieldRejected(data, pos, m, w, p);
  }

  /**
   * An unknown field the skipper frames with a negative count, or with one
   * that reaches past the end of the buffer, is rejected.
   */
  lemma UnknownFieldTooLong(data: seq<byte>, pos: nat, m: EnvironmentValue, w: uint64, p: nat, n: int64)
    requires pos < |data| <= MaxInt
    requires ReadVarint(data, pos) == Ok((w, p)) && w % 8 != 4 && Int32Of(w / 8) >= 4
    requires SkipField(data, pos) == Ok(n) && (n < 0 || pos + n > |data|)
    ensures n < 0 || pos + n > MaxInt ==> DecodeFrom(data, pos, m) == Outcome(m, Some(InvalidLength))
    ensures 0 <= n && |data| < pos + n <= MaxInt ==> DecodeFrom(data, pos, m) == Outcome(m, Some(UnexpectedEOF))
  {
    if n < 0 || pos + n > MaxInt {
      DecodeStop(data, pos, m, InvalidLength);
    } else {
      DecodeStop(data, pos, m, UnexpectedEOF);
    }
  }

  /** The bytes a cut string field leaves: its tag, then part of its length varint, or all of it. */
  lemma CutFieldBytes(data: seq<byte>, pos: nat, tag: byte, s: seq<byte>, k: nat)
    requires 0 < k < |FieldBytes(tag, s)| && |data| == pos + k && Spells(data, pos, FieldBytes(tag, s)[..k])
    ensures Spells(data, pos, [tag])
    ensures k <= VarintSize(|s|) ==> forall j :: pos + 1 <= j < |data| ==> data[j] >= 128
    ensures k > VarintSize(|s|) ==> Spells(data, pos + 1, VarintBytes(|s|))
  {
    var f := FieldBytes(tag, s);
    var vb := VarintBytes(|s|);
    assert f == [tag] + vb + s;
    assert data[pos + 0] == f[..k][0];
    if k <= VarintSize(|s|) {
      VarintBytesShape(|s|);
      forall j | pos + 1 <= j < |data| ensures data[j] >= 128 {
        assert data[pos + (j - pos)] == f[..k][j - pos] == vb[j - pos - 1];
      }
    } else {
      forall i | 0 <= i < |vb| ensures data[pos + 1 + i] == vb[i] {
        assert data[pos + (1 + i)] == f[..k][1 + i] == vb[i];
      }
    }
  }

  /**
   * A string field cut short by the end of the buffer, anywhere after its tag
   * byte, is unexpected EOF: either the length varint runs out, or the length
   * reaches past the end.
   */
  lemma TruncatedFieldRejected(data: seq<byte>, pos: nat, tag: byte, s: seq<byte>, k: nat, m: EnvironmentValue)
    requires tag == DescriptionTag || tag == NameTag || tag == OrganizationTag
    requires 0 < k < |FieldBytes(tag, s)| && pos + |FieldBytes(tag, s)| <= MaxInt
    requires |data| == pos + k && Spells(data, pos, FieldBytes(tag, s)[..k])
    ensures DecodeFrom(data, pos, m) == Outcome(m, Some(UnexpectedEOF))
  {
    CutFieldBytes(data, pos, tag, s, k);
    assert VarintBytes(tag) == [tag];
    ReadVarintSpelled(data, pos, pos + 1, tag);
    if k <= VarintSize(|s|) {
      VarintSizeOfUint64(|s|);
      ReadVarintTruncated(data, pos + 1);
      assert ReadString(data, pos + 1) == Err(UnexpectedEOF);
    } else {
      var q := pos + 1 + VarintSize(|s|);
      ReadVarintSpelled(data, pos + 1, q, |s|);
      ReadStringCases(data, pos + 1, |s|, q);
      assert ReadString(data, pos + 1) == Err(UnexpectedEOF);
    }
    KnownFieldRejected(data, pos, m, tag, pos + 1);
  }

  /**
   * A complete encoding followed by a string field cut short: everything
   * before the cut is decoded into the record, which Unmarshal leaves so,
   * and the cut field is unexpected EOF.
   */
  lemma TruncatedAfterEncoding(m0: EnvironmentValue, a: EnvironmentValue, fs: seq<UnknownField>,
                               tag: byte, s: seq<byte>, k: nat)
    requires a.unrecognized == Concat(fs) && AllUnknown(fs)
    requires tag == DescriptionTag || tag == NameTag || tag == OrganizationTag
    requires 0 < k < |FieldBytes(tag, s)| && |Encode(a)| + |FieldBytes(tag, s)| <= MaxInt
    ensures Decode(m0, Encode(a) + FieldBytes(tag, s)[..k]) == Outcome(Merge(m0, a), Some(UnexpectedEOF))
  {
    var data := Encode(a) + FieldBytes(tag, s)[..k];
    SpellsWhole(data);
    SpellsSplit(data, 0, Encode(a), FieldBytes(tag, s)[..k], |Encode(a)|);
    EncodedDecode(data, 0, m0, a, fs, |Encode(a)|, Merge(m0, a));
    TruncatedFieldRejected(data, |Encode(a)|, tag, s, k, Merge(m0, a));
  }

  /** Concrete rejections, one per tag error. */
  lemma ExampleRejections()
    ensures Decode(Empty, [0x08, 0x01]) == Outcome(Empty, Some(WrongWireType("Description", 0)))
    ensures Decode(Empty, [0x00]) == Outcome(Empty, Some(IllegalTag(0, 0)))
    ensures Decode(Empty, [0x0c]) == Outcome(Empty, Some(EndGroupForNonGroup))
    ensures Decode(Empty, [0x26]) == Outcome(Empty, Some(IllegalWireType(6)))
    ensures Decode(Empty, [0x0a, 0x05, 0x61]) == Outcome(Empty, Some(UnexpectedEOF))
  {
    assert ReadVarint([0x08, 0x01], 0) == Ok((8, 1));
    WrongWireTypeRejected([0x08, 0x01], 0, Empty, 8, 1);
    assert ReadVarint([0x00], 0) == Ok((0, 1));
    IllegalTagRejected([0x00], 0, Empty, 0, 1);
    assert ReadVarint([0x0c], 0) == Ok((12, 1));
    EndGroupRejected([0x0c], 0, Empty, 12, 1);
    assert ReadVarint([0x26], 0) == Ok((38, 1));
    IllegalWireTypeRejected([0x26], 0, Empty, 38, 1);
    assert ReadVarint([0x0a, 0x05, 0x61], 0) == Ok((10, 1));
    assert ReadVarint([0x0a, 0x05, 0x61], 1) == Ok((5, 2));
    ReadStringCases([0x0a, 0x05, 0x61], 1, 5, 2);
    KnownFieldRejected([0x0a, 0x05, 0x61], 0, Empty, 10, 1);
  }
}

/**
 * Three places where environment.pb.go adds a length read from the input to
 * a position as Go ints and checks only the upper bound. A sum past the
 * largest int wraps to a negative number, the check lets it through and the
 * next slice or index panics. The members here model the code as written and
 * exhibit an input for each; the rest of the model uses SliceEnd and
 * GroupResume, which report such a sum as an invalid length, as later
 * versions of the generator do.
 */
module Findings {
  import opened Wire
  import opened Varint
  import opened Record
  import opened Skipping
  import opened UnknownFields
  import opened Encoding
  import opened Decoding
  import opened RoundTrip
  import opened Rejection

  /** What a bound check followed by `dAtA[start:end]` does: slice, report EOF, or panic. */
  datatype Bound = InRange(end: nat) | PastEnd | SlicePanic

  /**
   * `end := start + count; if end > l { return io.ErrUnexpectedEOF }` and then
   * the slice `dAtA[start:end]`, which panics when end is below start.
   */
  function SliceEndAsWritten(start: nat, count: int64, l: nat): (r: Bound)
    requires start <= l <= MaxInt && count >= 0
    ensures r == SlicePanic <==> start + count > MaxInt
    ensures r == PastEnd <==> l < start + count <= MaxInt
    ensures r.InRange? ==> r.end == start + count
  {
    var end := Add64(start, count);
    if end > l then PastEnd else if end < start then SlicePanic else InRange(end)
  }

  /** While the sum fits in an int, the code as written and SliceEnd agree. */
  lemma SliceEndAgrees(start: nat, count: int64, l: nat)
    requires start <= l <= MaxInt && count >= 0 && start + count <= MaxInt
    ensures SliceEndAsWritten(start, count, l).InRange? <==> SliceEnd(start, count, l).Ok?
    ensures SliceEnd(start, count, l).Ok? ==> SliceEndAsWritten(start, count, l).end == SliceEnd(start, count, l).value
    ensures SliceEndAsWritten(start, count, l).PastEnd? <==> SliceEnd(start, count, l) == Err(UnexpectedEOF)
  {
  }

  /** Past the largest int the code as written panics, where SliceEnd reports an invalid length. */
  lemma SliceEndWraps(start: nat, count: int64, l: nat)
    requires start <= l <= MaxInt && count >= 0 && start + count > MaxInt
    ensures SliceEndAsWritten(start, count, l) == SlicePanic
    ensures SliceEnd(start, count, l) == Err(InvalidLength)
  {
  }

  /**
   * `iNdEx = start + next` in the group loop of skipEnvironment, unchecked;
   * the loop then reads `dAtA[iNdEx]`, which panics at a negative index.
   */
  function GroupResumeAsWritten(start: int64, next: int64): (r: int64)
    ensures -TWO63 <= start + next < TWO63 ==> r == start + next
    ensures start + next >= TWO63 ==> r < 0
  {
    Add64(start, next)
  }

  /** A nested field whose count came back negative sends the group loop to a negative index; GroupResume rejects it. */
  lemma GroupResumeWraps(start: int64, next: int64)
    requires 1 <= start && next < 0 && start + next < 0
    ensures GroupResumeAsWritten(start, next) < 0
    ensures GroupResume(start, next) == Err(InvalidLength)
  {
  }

  /** While the sum is a valid position, the code as written and GroupResume agree. */
  lemma GroupResumeAgrees(start: int64, next: int64)
    requires 1 <= start && 0 <= next && start + next < TWO63
    ensures GroupResume(start, next) == Ok(GroupResumeAsWritten(start, next))
  {
  }

  /** A varint of nine bytes: values from 2^56 up to the largest int. */
  lemma NineByteVarint(v: nat)
    requires 0x100_0000_0000_0000 <= v < TWO63
    ensures VarintSize(v) == 9
  {
    assert Pow128(8) == 0x100_0000_0000_0000 by {
      assert Pow128(2) == 0x4000;
      assert Pow128(4) == 0x1000_0000;
    }
    assert Pow128(9) == TWO63;
    VarintSizeWithin(v, 8);
    VarintSizeWithin(v, 9);
  }

  /** The bytes of a tag byte followed by the varint of v: the tag at 0, the varint from 1 on. */
  lemma TagThenVarint(tag: byte, v: uint64)
    requires tag < 128
    ensures ReadVarint([tag] + VarintBytes(v), 0) == Ok((tag, 1))
    ensures ReadVarint([tag] + VarintBytes(v), 1) == Ok((v, 1 + VarintSize(v)))
  {
    var data := [tag] + VarintBytes(v);
    SpellsWhole(data);
    SpellsSplit(data, 0, [tag], VarintBytes(v), 1);
    TagRead(data, 0, tag);
    ReadVarintSpelled(data, 1, 1 + VarintSize(v), v);
  }

  /**
   * 0a ff ff ff ff ff ff ff ff 7f: field 1 with the length 2^63 - 1. The end
   * 10 + length wraps negative, passes `postIndex > l` and the slice panics;
   * the model stops with an invalid length.
   */
  lemma StringLengthWraps()
    ensures ReadVarint([DescriptionTag] + VarintBytes(MaxInt), 1) == Ok((MaxInt, 10))
    ensures SliceEndAsWritten(10, MaxInt, 10) == SlicePanic
    ensures Decode(Empty, [DescriptionTag] + VarintBytes(MaxInt)) == Outcome(Empty, Some(InvalidLength))
  {
    var data := [DescriptionTag] + VarintBytes(MaxInt);
    NineByteVarint(MaxInt);
    TagThenVarint(DescriptionTag, MaxInt);
    ReadStringCases(data, 1, MaxInt, 10);
    KnownFieldRejected(data, 0, Empty, DescriptionTag, 1);
  }

  /**
   * In 23 0a followed by a nine-byte length within ten of the largest int,
   * the nested field at 1 is counted 10 + length bytes, wrapped negative.
   */
  lemma NestedCountWraps(data: seq<byte>, len: uint64)
    requires TWO63 - 10 <= len < TWO63 && data == [0x23, 0x0a] + VarintBytes(len)
    ensures |data| == 11
    ensures ReadVarint(data, 0) == Ok((0x23, 1)) && ReadVarint(data, 1) == Ok((0x0a, 2))
    ensures SkipField(data, 1) == Ok(10 + len - TWO64)
  {
    NineByteVarint(len);
    var rest := [0x0a] + VarintBytes(len);
    assert data == [0x23] + rest;
    SpellsWhole(data);
    SpellsSplit(data, 0, [0x23], rest, 1);
    TagRead(data, 0, 0x23);
    NestedFieldWraps(data, len);
  }

  /** Field 1 of wire type 2 with a nine-byte length at position 1 of an 11-byte buffer: counted 10 + len bytes, wrapped negative. */
  lemma NestedFieldWraps(data: seq<byte>, len: uint64)
    requires TWO63 - 10 <= len < TWO63 && VarintSize(len) == 9
    requires |data| == 11 && Spells(data, 1, [0x0a] + VarintBytes(len))
    ensures ReadVarint(data, 1) == Ok((0x0a, 2))
    ensures SkipField(data, 1) == Ok(10 + len - TWO64)
  {
    SpellsSplit(data, 1, [0x0a], VarintBytes(len), 2);
    TagRead(data, 1, 0x0a);
    ReadVarintSpelled(data, 2, 11, len);
    SkipFramingBytes(data, 1, 0x0a, 2, len, 11, 10 + len);
  }

  /** The group at 0 of that buffer: the nested count is negative, so the skipper rejects the group. */
  lemma GroupSkipRejected(data: seq<byte>, len: uint64)
    requires TWO63 - 10 <= len < TWO63 && data == [0x23, 0x0a] + VarintBytes(len)
    ensures |data| == 11 && ReadVarint(data, 0) == Ok((0x23, 1))
    ensures SkipField(data, 0) == Err(InvalidLength)
  {
    NestedCountWraps(data, len);
    SkipFramingGroup(data, 0, 0x23, 1);
    GroupNextFraming(data, 0, 1, 0x0a, 2, 10 + len - TWO64);
  }

  /**
   * A group (field 4, wire type 3) whose nested field 1 has the length
   * 2^63 - 1: the skipper returns the wrapped, negative count for the nested
   * field with no error, and the group loop goes on at a negative index. The
   * model stops with an invalid length.
   */
  lemma GroupCountWraps()
    ensures SkipField([0x23, 0x0a] + VarintBytes(MaxInt), 1) == Ok(10 + MaxInt - TWO64)
    ensures GroupResumeAsWritten(1, 10 + MaxInt - TWO64) < 0
    ensures Decode(Empty, [0x23, 0x0a] + VarintBytes(MaxInt)) == Outcome(Empty, Some(InvalidLength))
  {
    var data := [0x23, 0x0a] + VarintBytes(MaxInt);
    NestedCountWraps(data, MaxInt);
    GroupSkipRejected(data, MaxInt);
    UnknownFieldRejected(data, 0, Empty, 0x23, 1);
  }

  /**
   * 0a 01 41, then field 4 of wire type 2 with a nine-byte length close to
   * the largest int: the skipper counts 10 + len bytes from position 3, and
   * 3 plus that count is past the largest int. The model stops with an
   * invalid length, after field 1 was set.
   */
  lemma UnknownTailWraps(data: seq<byte>, len: uint64)
    requires TWO63 - 13 <= len <= TWO63 - 11 && data == [0x0a, 0x01, 0x41, 0x22] + VarintBytes(len)
    ensures |data| == 13
    ensures SkipField(data, 3) == Ok(10 + len) && 3 + (10 + len) > MaxInt
    ensures Decode(Empty, data) == Outcome(EnvironmentValue([0x41], [], [], []), Some(InvalidLength))
  {
    NineByteVarint(len);
    SpellsWhole(data);
    var m := EnvironmentValue([0x41], [], [], []);
    assert Encode(m) == data[..3] by {
      assert VarintBytes(1) == [1];
    }
    assert data == Encode(m) + ([0x22] + VarintBytes(len));
    SpellsSplit(data, 0, Encode(m), [0x22] + VarintBytes(len), 3);
    assert Concat([]) == [];
    EncodedDecode(data, 0, Empty, m, [], 3, Merge(Empty, m));
    TailFieldWraps(data, len, m);
  }

  /** The field 22 followed by the varint of len at position 3 of a 13-byte buffer: counted 10 + len bytes, an invalid length. */
  lemma TailFieldWraps(data: seq<byte>, len: uint64, m: EnvironmentValue)
    requires TWO63 - 13 <= len <= TWO63 - 11 && VarintSize(len) == 9
    requires |data| == 13 && Spells(data, 3, [0x22] + VarintBytes(len))
    ensures SkipField(data, 3) == Ok(10 + len)
    ensures DecodeFrom(data, 3, m) == Outcome(m, Some(InvalidLength))
  {
    SpellsSplit(data, 3, [0x22], VarintBytes(len), 4);
    TagRead(data, 3, 0x22);
    ReadVarintSpelled(data, 4, 13, len);
    SkipFramingBytes(data, 3, 0x22, 4, len, 13, 10 + len);
    assert Int32Of(0x22 / 8) == 4;
    UnknownFieldTooLong(data, 3, m, 0x22, 4, 10 + len);
  }

  /**
   * 0a 01 41 22 f5 ff ff ff ff ff ff ff 7f: field 4 of wire type 2 with the
   * length 2^63 - 11. The skipper counts 2^63 - 1 bytes from position 3, the
   * sum 3 + skippy wraps negative, passes `(iNdEx + skippy) > l` and the
   * slice panics. The model stops with an invalid length, after field 1 was
   * set.
   */
  lemma UnknownCountWraps()
    ensures VarintSize(MaxInt - 10) == 9
    ensures SkipField([0x0a, 0x01, 0x41, 0x22] + VarintBytes(MaxInt - 10), 3) == Ok(MaxInt)
    ensures SliceEndAsWritten(3, MaxInt, 13) == SlicePanic
    ensures Decode(Empty, [0x0a, 0x01, 0x41, 0x22] + VarintBytes(MaxInt - 10))
         == Outcome(EnvironmentValue([0x41], [], [], []), Some(InvalidLength))
  {
    NineByteVarint(MaxInt - 10);
    UnknownTailWraps([0x0a, 0x01, 0x41, 0x22] + VarintBytes(MaxInt - 10), MaxInt - 10);
  }
}

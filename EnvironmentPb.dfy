/**
 * The generated Go code for the Environment message: the record as an
 * object whose fields Unmarshal and Reset update in place, the marshalling
 * methods that write into a byte array at an advancing index, and the
 * index-driven decoding loops. Each method is proved against the function
 * that specifies it (Encode, Decode, SkipField, ReadString, ReadVarint).
 */
module EnvironmentPb {
  import opened Wire
  import opened Varint
  import opened Record
  import opened Encoding
  import opened Skipping
  import opened Decoding

  /** Every Go string and byte slice is at most MaxInt long; this is the fact Size and MarshalTo rely on. */
  predicate WellSized(m: EnvironmentValue)
  {
    |m.description| <= MaxInt && |m.name| <= MaxInt && |m.organization| <= MaxInt && |m.unrecognized| <= MaxInt
  }

  /** Go's `copy(dAtA[i:], s)` when the destination has room for all of s. */
  method CopyInto(dAtA: array<byte>, i: nat, s: seq<byte>) returns (next: nat)
    requires i + |s| <= dAtA.Length
    modifies dAtA
    ensures next == i + |s|
    ensures dAtA[..] == old(dAtA[..i]) + s + old(dAtA[next..])
  {
    forall k | 0 <= k < |s| {
      dAtA[i + k] := s[k];
    }
    next := i + |s|;
    assert dAtA[..] == old(dAtA[..i]) + s + old(dAtA[next..]);
  }

  /** One block of MarshalTo: the tag byte, the varint length, the bytes of a non-empty string. */
  method WriteField(dAtA: array<byte>, i: nat, tag: byte, s: seq<byte>) returns (next: nat)
    requires 0 < |s| <= MaxInt
    requires i + |FieldBytes(tag, s)| <= dAtA.Length
    modifies dAtA
    ensures next == i + |FieldBytes(tag, s)|
    ensures dAtA[..] == old(dAtA[..i]) + FieldBytes(tag, s) + old(dAtA[next..])
  {
    ghost var a0 := dAtA[..];
    PutByte(dAtA, i, tag);
    ghost var a1 := dAtA[..];
    var j := EncodeVarint(dAtA, i + 1, |s|);
    ghost var a2 := dAtA[..];
    next := CopyInto(dAtA, j, s);
    Compose(a0, a1, a2, dAtA[..], i, j, next, tag, VarintBytes(|s|), s);
  }

  /**
   * One `if len(m.X) > 0` block of MarshalTo, with `done` already written
   * before i and the rest of the array as it was before MarshalTo began.
   */
  method AppendField(dAtA: array<byte>, i: nat, tag: byte, s: seq<byte>, ghost done: seq<byte>, ghost orig: seq<byte>)
    returns (next: nat)
    requires |s| <= MaxInt && |orig| == dAtA.Length
    requires i + |FieldBytes(tag, s)| <= dAtA.Length
    requires dAtA[..i] == done && dAtA[i..] == orig[i..]
    modifies dAtA
    ensures next == i + |FieldBytes(tag, s)|
    ensures dAtA[..next] == done + FieldBytes(tag, s) && dAtA[next..] == orig[next..]
  {
    next := i;
    if |s| > 0 {
      next := WriteField(dAtA, i, tag, s);
      assert dAtA[..next] == dAtA[..i] + FieldBytes(tag, s);
    }
  }

  /** The `if m.XXX_unrecognized != nil` block of MarshalTo: the unknown bytes verbatim. */
  method AppendRaw(dAtA: array<byte>, i: nat, s: seq<byte>, ghost done: seq<byte>, ghost orig: seq<byte>)
    returns (next: nat)
    requires |orig| == dAtA.Length && i + |s| <= dAtA.Length
    requires dAtA[..i] == done && dAtA[i..] == orig[i..]
    modifies dAtA
    ensures next == i + |s|
    ensures dAtA[..next] == done + s && dAtA[next..] == orig[next..]
  {
    next := i;
    if s != [] {
      next := CopyInto(dAtA, i, s);
      assert dAtA[..next] == dAtA[..i] + s;
    }
  }

  /** Three splices one after another: a tag byte, then a varint, then the string. */
  lemma Compose(a0: seq<byte>, a1: seq<byte>, a2: seq<byte>, a3: seq<byte>, i: nat, j: nat, next: nat,
                tag: byte, vb: seq<byte>, s: seq<byte>)
    requires i < |a0| && j == i + 1 + |vb| && next == j + |s| <= |a0|
    requires a1 == a0[..i] + [tag] + a0[i + 1..]
    requires a2 == a1[..i + 1] + vb + a1[j..]
    requires a3 == a2[..j] + s + a2[next..]
    ensures a3 == a0[..i] + ([tag] + vb + s) + a0[next..]
  {
    assert a1[..i + 1] == a0[..i] + [tag];
    assert a1[j..] == a0[j..];
    assert a2[..j] == a0[..i] + [tag] + vb;
    assert a2[next..] == a0[next..];
  }

  /** The loop that reads a known string field's length and bounds it, inlined three times in Unmarshal. */
  method ReadStringAt(dAtA: array<byte>, pos: nat) returns (r: Result<(seq<byte>, nat)>)
    requires pos <= dAtA.Length <= MaxInt
    ensures r == ReadString(dAtA[..], pos)
  {
    var v := ReadVarintAt(dAtA, pos);
    if v.Err? {
      return Err(v.error);
    }
    var stringLen, iNdEx := v.value.0, v.value.1;
    var intStringLen := Int64Of(stringLen);
    if intStringLen < 0 {
      return Err(InvalidLength);
    }
    var postIndex := SliceEnd(iNdEx, intStringLen, dAtA.Length);
    if postIndex.Err? {
      return Err(postIndex.error);
    }
    return Ok((dAtA[iNdEx..postIndex.value], postIndex.value));
  }

  /** skipEnvironment(dAtA[base:]): the length of the field at base. */
  method SkipEnvironment(dAtA: array<byte>, base: nat) returns (r: Result<int64>)
    requires base < dAtA.Length <= MaxInt
    ensures r == SkipField(dAtA[..], base)
    decreases dAtA.Length - base, 1, 0
  {
    var tag := ReadVarintAt(dAtA, base);
    if tag.Err? {
      return Err(tag.error);
    }
    var wire, p := tag.value.0, tag.value.1;
    var iNdEx: int64 := p - base;
    var wireType := wire % 8;
    if wireType == 0 {
      var v := ReadVarintAt(dAtA, p);
      if v.Err? {
        return Err(v.error);
      }
      return Ok(v.value.1 - base);
    } else if wireType == 1 {
      return Ok(iNdEx + 8);
    } else if wireType == 2 {
      var v := ReadVarintAt(dAtA, p);
      if v.Err? {
        return Err(v.error);
      }
      var length := Int64Of(v.value.0);
      var end := Add64(v.value.1 - base, length);
      if length < 0 {
        return Err(InvalidLength);
      }
      return Ok(end);
    } else if wireType == 3 {
      r := SkipGroupAt(dAtA, base, iNdEx);
    } else if wireType == 4 {
      return Ok(iNdEx);
    } else if wireType == 5 {
      return Ok(iNdEx + 4);
    } else {
      return Err(IllegalWireType(wireType));
    }
  }

  /** The group loop of skipEnvironment, from relative position pos to just past the end-group tag. */
  method SkipGroupAt(dAtA: array<byte>, base: nat, pos: int64) returns (r: Result<int64>)
    requires base < dAtA.Length <= MaxInt
    requires pos >= 1
    ensures r == SkipGroup(dAtA[..], base, pos)
    decreases dAtA.Length - base, 0, 0
  {
    var iNdEx := pos;
    while true
      invariant iNdEx >= 1
      invariant SkipGroup(dAtA[..], base, iNdEx) == SkipGroup(dAtA[..], base, pos)
      decreases if base + iNdEx <= dAtA.Length then dAtA.Length - base - iNdEx + 1 else 0
    {
      var start := iNdEx;
      var inner := ReadVarintAt(dAtA, base + start);
      if inner.Err? {
        return Err(inner.error);
      }
      if inner.value.0 % 8 == 4 {
        return Ok(inner.value.1 - base);
      }
      var next := SkipEnvironment(dAtA, base + start);
      if next.Err? {
        return Err(next.error);
      }
      var resumed := GroupResume(start, next.value);
      if resumed.Err? {
        return Err(resumed.error);
      }
      iNdEx := resumed.value;
    }
  }

  class Environment {
    var description: seq<byte>
    var name: seq<byte>
    var organization: seq<byte>
    var unrecognized: seq<byte>

    /** The record's contents as a value. */
    function Value(): EnvironmentValue
      reads this
    {
      EnvironmentValue(description, name, organization, unrecognized)
    }

    /** `&Environment{}`. */
    constructor ()
      ensures Value() == Empty
    {
      description, name, organization, unrecognized := [], [], [], [];
    }

    /** Reset: `*m = Environment{}`. */
    method Reset()
      modifies this
      ensures Value() == Empty
    {
      description, name, organization, unrecognized := [], [], [], [];
    }

    /** Size: the exact number of bytes MarshalTo writes. */
    method Size() returns (n: int)
      requires WellSized(Value())
      ensures n == |Encode(Value())|
    {
      n := 0;
      var l := |description|;
      if l > 0 {
        var s := Sov(l);
        n := n + 1 + l + s;
      }
      l := |name|;
      if l > 0 {
        var s := Sov(l);
        n := n + 1 + l + s;
      }
      l := |organization|;
      if l > 0 {
        var s := Sov(l);
        n := n + 1 + l + s;
      }
      if unrecognized != [] {
        n := n + |unrecognized|;
      }
      EncodeLength(Value());
    }

    /** MarshalTo: write the encoding at the start of dAtA and return its length. */
    method MarshalTo(dAtA: array<byte>) returns (n: int)
      requires WellSized(Value())
      requires |Encode(Value())| <= dAtA.Length
      modifies dAtA
      ensures n == |Encode(Value())|
      ensures dAtA[..n] == Encode(Value())
      ensures dAtA[n..] == old(dAtA[n..])
    {
      ghost var orig := dAtA[..];
      var i := 0;
      i := AppendField(dAtA, i, DescriptionTag, description, [], orig);
      i := AppendField(dAtA, i, NameTag, name, FieldBytes(DescriptionTag, description), orig);
      ghost var done := FieldBytes(DescriptionTag, description) + FieldBytes(NameTag, name);
      i := AppendField(dAtA, i, OrganizationTag, organization, done, orig);
      done := done + FieldBytes(OrganizationTag, organization);
      i := AppendRaw(dAtA, i, unrecognized, done, orig);
      n := i;
    }

    /** Marshal: a fresh array of Size bytes holding the encoding. */
    method Marshal() returns (dAtA: array<byte>)
      requires WellSized(Value())
      ensures fresh(dAtA)
      ensures dAtA[..] == Encode(Value())
    {
      var size := Size();
      dAtA := new byte[size];
      var n := MarshalTo(dAtA);
      assert dAtA[..] == dAtA[..n];
    }

    /** Unmarshal: decode dAtA into this record, field by field, until the buffer is used up or an error. */
    method Unmarshal(dAtA: array<byte>) returns (err: Option<Error>)
      requires dAtA.Length <= MaxInt
      modifies this
      ensures Outcome(Value(), err) == Decode(old(Value()), dAtA[..])
    {
      var l := dAtA.Length;
      var iNdEx := 0;
      while iNdEx < l
        invariant 0 <= iNdEx <= l
        invariant DecodeFrom(dAtA[..], iNdEx, Value()) == Decode(old(Value()), dAtA[..])
        decreases l - iNdEx
      {
        var preIndex := iNdEx;
        var tag := ReadVarintAt(dAtA, iNdEx);
        if tag.Err? {
          return Some(tag.error);
        }
        var wire := tag.value.0;
        iNdEx := tag.value.1;
        var fieldNum := Int32Of(wire / 8);
        var wireType := wire % 8;
        if wireType == 4 {
          return Some(EndGroupForNonGroup);
        }
        if fieldNum <= 0 {
          return Some(IllegalTag(fieldNum, wire));
        }
        if fieldNum <= 3 {
          if wireType != 2 {
            return Some(WrongWireType(FieldName(fieldNum), wireType));
          }
          var str := ReadStringAt(dAtA, iNdEx);
          if str.Err? {
            return Some(str.error);
          }
          if fieldNum == 1 {
            description := str.value.0;
          } else if fieldNum == 2 {
            name := str.value.0;
          } else {
            organization := str.value.0;
          }
          iNdEx := str.value.1;
        } else {
          iNdEx := preIndex;
          var skippy := SkipEnvironment(dAtA, iNdEx);
          if skippy.Err? {
            return Some(skippy.error);
          }
          if skippy.value < 0 {
            return Some(InvalidLength);
          }
          var end := SliceEnd(iNdEx, skippy.value, l);
          if end.Err? {
            return Some(end.error);
          }
          unrecognized := unrecognized + dAtA[iNdEx..end.value];
          iNdEx := end.value;
        }
      }
      return None;
    }
  }

  /** GetDescription: nil-safe, a nil record reads as empty. */
  function GetDescription(m: Environment?): (s: seq<byte>)
    reads m
    ensures m == null ==> s == []
    ensures m != null ==> s == m.Value().description
  {
    if m != null then m.description else []
  }

  /** GetName: nil-safe, a nil record reads as empty. */
  function GetName(m: Environment?): (s: seq<byte>)
    reads m
    ensures m == null ==> s == []
    ensures m != null ==> s == m.Value().name
  {
    if m != null then m.name else []
  }

  /** GetOrganization: nil-safe, a nil record reads as empty. */
  function GetOrganization(m: Environment?): (s: seq<byte>)
    reads m
    ensures m == null ==> s == []
    ensures m != null ==> s == m.Value().organization
  {
    if m != null then m.organization else []
  }
}

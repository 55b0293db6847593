/**
 * Unmarshal as a function: the loop over fields, one UnmarshalStep per
 * field, and the record it leaves. Go's Unmarshal updates the record in
 * place and returns an error without undoing what earlier fields set, so
 * the outcome of a failed decode carries the record as it was when the
 * failing field was reached.
 */
module Decoding {
  import opened Wire
  import opened Varint
  import opened Record
  import opened Skipping

  datatype Outcome = Outcome(record: EnvironmentValue, error: Option<Error>)

  /** One pass of the loop: go on at `next` with the updated record, or stop with an error. */
  datatype Step = Continue(next: nat, record: EnvironmentValue) | Stop(error: Error)

  /**
   * The end of a payload of `count` bytes starting at `start` in a buffer of
   * l bytes. Go computes `start + count` on ints; a sum past the largest int
   * is an invalid length (the as-written code slices with it: see
   * SliceEndAsWritten), a sum past the buffer is unexpected EOF.
   */
  function SliceEnd(start: nat, count: int64, l: nat): (r: Result<nat>)
    requires start <= l <= MaxInt && count >= 0
    ensures r.Ok? <==> start + count <= l
    ensures r.Ok? ==> r.value == start + count
    ensures r.Err? ==> r.error == (if start + count > MaxInt then InvalidLength else UnexpectedEOF)
  {
    var end := Add64(start, count);
    if end < 0 then Err(InvalidLength)
    else if end > l then Err(UnexpectedEOF)
    else Ok(end)
  }

  /**
   * The payload of a known string field, after its tag: a varint length read
   * as a Go int (negative is an invalid length) and that many bytes.
   */
  function ReadString(data: seq<byte>, pos: nat): (r: Result<(seq<byte>, nat)>)
    requires pos <= |data| <= MaxInt
    ensures r.Ok? ==> pos + |r.value.0| < r.value.1 <= |data|
    ensures r.Ok? ==> r.value.0 == data[r.value.1 - |r.value.0|..r.value.1]
  {
    match ReadVarint(data, pos)
    case Err(e) => Err(e)
    case Ok((stringLen, p)) =>
      var intStringLen := Int64Of(stringLen);
      if intStringLen < 0 then Err(InvalidLength)
      else
        match SliceEnd(p, intStringLen, |data|)
        case Err(e) => Err(e)
        case Ok(postIndex) => Ok((data[p..postIndex], postIndex))
  }

  /** The Go name of a known field, as the wrong-wire-type message spells it. */
  function FieldName(fieldNum: int): (name: string)
  {
    if fieldNum == 1 then "Description" else if fieldNum == 2 then "Name" else "Organization"
  }

  /** The unrecognized bytes u start with the bytes u0: decoding only ever appends to them. */
  predicate Extends(u: seq<byte>, u0: seq<byte>)
  {
    |u0| <= |u| && u[..|u0|] == u0
  }

  /** Assign a known field outright, as `m.Description = string(...)` does. */
  function SetField(m: EnvironmentValue, fieldNum: int, s: seq<byte>): (r: EnvironmentValue)
    ensures r.unrecognized == m.unrecognized
    ensures fieldNum == 1 ==> r.description == s && r.name == m.name && r.organization == m.organization
    ensures fieldNum == 2 ==> r.name == s && r.description == m.description && r.organization == m.organization
    ensures fieldNum == 3 ==> r.organization == s && r.description == m.description && r.name == m.name
  {
    if fieldNum == 1 then m.(description := s)
    else if fieldNum == 2 then m.(name := s)
    else m.(organization := s)
  }

  /** Assigning a field twice keeps only the second value. */
  lemma SetFieldOverwrites(m: EnvironmentValue, fieldNum: int, a: seq<byte>, b: seq<byte>)
    ensures SetField(SetField(m, fieldNum, a), fieldNum, b) == SetField(m, fieldNum, b)
  {
  }

  /**
   * One pass of Unmarshal's loop at pos: read the tag, whose field number is
   * `int32(wire >> 3)` and wire type `wire & 7`; reject wire type 4 and then
   * field numbers <= 0; fields 1 to 3 must have wire type 2 and set their
   * string; any other field is skipped from its tag on and its bytes are
   * appended to the unrecognized ones.
   */
  function UnmarshalStep(data: seq<byte>, pos: nat, m: EnvironmentValue): (s: Step)
    requires pos < |data| <= MaxInt
    ensures s.Continue? ==> pos < s.next <= |data|
    ensures s.Continue? ==> Extends(s.record.unrecognized, m.unrecognized)
  {
    match ReadVarint(data, pos)
    case Err(e) => Stop(e)
    case Ok((wire, p)) =>
      var fieldNum := Int32Of(wire / 8);
      var wireType := wire % 8;
      if wireType == 4 then Stop(EndGroupForNonGroup)
      else if fieldNum <= 0 then Stop(IllegalTag(fieldNum, wire))
      else if fieldNum <= 3 then
        if wireType != 2 then Stop(WrongWireType(FieldName(fieldNum), wireType))
        else
          match ReadString(data, p)
          case Err(e) => Stop(e)
          case Ok((s, postIndex)) => Continue(postIndex, SetField(m, fieldNum, s))
      else
        match SkipField(data, pos)
        case Err(e) => Stop(e)
        case Ok(skippy) =>
          if skippy < 0 then Stop(InvalidLength)
          else
            match SliceEnd(pos, skippy, |data|)
            case Err(e) => Stop(e)
            case Ok(end) => Continue(end, m.(unrecognized := m.unrecognized + data[pos..end]))
  }

  /**
   * The loop from pos to the end of the buffer. Every step moves forward and
   * stays within the buffer, so the source's final `iNdEx > l` check can
   * never fire and is not modelled.
   */
  function DecodeFrom(data: seq<byte>, pos: nat, m: EnvironmentValue): (r: Outcome)
    requires pos <= |data| <= MaxInt
    ensures Extends(r.record.unrecognized, m.unrecognized)
    decreases |data| - pos
  {
    if pos == |data| then Outcome(m, None)
    else
      match UnmarshalStep(data, pos, m)
      case Stop(e) => Outcome(m, Some(e))
      case Continue(next, m') => DecodeFrom(data, next, m')
  }

  /** Unmarshal of data into a record that holds m0. */
  function Decode(m0: EnvironmentValue, data: seq<byte>): (r: Outcome)
    requires |data| <= MaxInt
    ensures Extends(r.record.unrecognized, m0.unrecognized)
    ensures |data| == 0 ==> r == Outcome(m0, None)
  {
    DecodeFrom(data, 0, m0)
  }
}

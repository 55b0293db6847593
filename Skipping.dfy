/**
 * skipEnvironment as a function: given the buffer and the position `base`
 * where the slice `dAtA[base:]` it is called on begins, how many bytes the
 * field at that position occupies (tag and payload), framed by its wire
 * type. All counts are relative to base and are Go `int`s.
 */
module Skipping {
  import opened Wire
  import opened Varint

  /**
   * After a nested field of a group was skipped, the group loop continues at
   * `start + next`. As written the source adds the two Go ints with no check,
   * so a huge or negative count makes the sum negative and the next read
   * indexes the buffer out of range (see GroupResumeAsWritten); here such a
   * count is an invalid length, as everywhere else in the decoder.
   */
  function GroupResume(start: int64, next: int64): (r: Result<int64>)
    requires start >= 0
    ensures r.Ok? <==> 0 <= next && start + next < TWO63
    ensures r.Ok? ==> r.value == start + next
    ensures r.Err? ==> r.error == InvalidLength
  {
    if next < 0 then Err(InvalidLength)
    else
      var resumed := Add64(start, next);
      if resumed < 0 then Err(InvalidLength) else Ok(resumed)
  }

  /**
   * The field starting at base: read its tag, then by wire type skip one
   * varint (0), 8 bytes (1), a varint length and that many bytes (2), a
   * group up to its end tag (3), nothing (4) or 4 bytes (5); wire types 6
   * and 7 are illegal. The fixed widths are not checked against the end of
   * the buffer here; the caller does that. The length of wire type 2 is read
   * as a Go int: a negative one is an invalid length, and a count that wraps
   * past the largest int is returned negative, for the caller to reject.
   */
  function SkipField(data: seq<byte>, base: nat): (r: Result<int64>)
    requires base < |data| <= MaxInt
    ensures r.Ok? && r.value >= 0 ==> r.value >= 1
    decreases |data| - base, 1, 0
  {
    match ReadVarint(data, base)
    case Err(e) => Err(e)
    case Ok((wire, p)) =>
      var i := p - base;
      var wireType := wire % 8;
      if wireType == 0 then
        match ReadVarint(data, p)
        case Err(e) => Err(e)
        case Ok((_, q)) => Ok(q - base)
      else if wireType == 1 then Ok(i + 8)
      else if wireType == 2 then
        match ReadVarint(data, p)
        case Err(e) => Err(e)
        case Ok((len, q)) =>
          var length := Int64Of(len);
          var end := Add64(q - base, length);
          if length < 0 then Err(InvalidLength) else Ok(end)
      else if wireType == 3 then SkipGroup(data, base, i)
      else if wireType == 4 then Ok(i)
      else if wireType == 5 then Ok(i + 4)
      else Err(IllegalWireType(wireType))
  }

  /**
   * The loop of the group case, at relative position pos: read the next
   * tag; an end-group tag (wire type 4) ends the group just after it (its
   * field number is not compared with the start tag's); any other field is
   * skipped by a recursive call on the slice that starts at its tag.
   */
  function SkipGroup(data: seq<byte>, base: nat, pos: int64): (r: Result<int64>)
    requires base < |data| <= MaxInt
    requires pos >= 1
    ensures r.Ok? ==> r.value > pos
    decreases |data| - base, 0, if base + pos <= |data| then |data| - base - pos + 1 else 0
  {
    var start := pos;
    match ReadVarint(data, base + start)
    case Err(e) => Err(e)
    case Ok((innerWire, p)) =>
      if innerWire % 8 == 4 then Ok(p - base)
      else
        match SkipField(data, base + start)
        case Err(e) => Err(e)
        case Ok(next) =>
          match GroupResume(start, next)
          case Err(e) => Err(e)
          case Ok(resumed) => SkipGroup(data, base, resumed)
  }

  /**
   * The framing skipEnvironment applies after a tag read from base to p:
   * eight bytes for wire type 1, four for 5, none for 4, and wire types 6
   * and 7 are illegal.
   */
  lemma SkipFraming(data: seq<byte>, base: nat, wire: uint64, p: nat)
    requires base < |data| <= MaxInt
    requires ReadVarint(data, base) == Ok((wire, p))
    ensures wire % 8 == 1 ==> SkipField(data, base) == Ok(p - base + 8)
    ensures wire % 8 == 4 ==> SkipField(data, base) == Ok(p - base)
    ensures wire % 8 == 5 ==> SkipField(data, base) == Ok(p - base + 4)
    ensures wire % 8 >= 6 ==> SkipField(data, base) == Err(IllegalWireType(wire % 8))
  {
  }

  /** Wire type 0 after a tag read from base to p: one more varint, whose errors are the field's. */
  lemma SkipFramingVarint(data: seq<byte>, base: nat, wire: uint64, p: nat)
    requires base < |data| <= MaxInt
    requires ReadVarint(data, base) == Ok((wire, p)) && wire % 8 == 0
    ensures ReadVarint(data, p).Err? ==> SkipField(data, base) == Err(ReadVarint(data, p).error)
    ensures ReadVarint(data, p).Ok? ==> SkipField(data, base) == Ok(ReadVarint(data, p).value.1 - base)
  {
  }

  /** Wire types 1 and 5 after a tag read from base to p: eight or four bytes. */
  lemma SkipFramingFixed(data: seq<byte>, base: nat, wire: uint64, p: nat, width: nat, n: nat)
    requires base < |data| <= MaxInt
    requires ReadVarint(data, base) == Ok((wire, p))
    requires (wire % 8 == 1 && width == 8) || (wire % 8 == 5 && width == 4)
    requires n == p - base + width
    ensures SkipField(data, base) == Ok(n)
  {
  }

  /** Wire type 0 after a tag read from base to p, with the value varint read from p to q. */
  lemma SkipFramingVarintOk(data: seq<byte>, base: nat, wire: uint64, p: nat, v: uint64, q: nat, n: nat)
    requires base < |data| <= MaxInt
    requires ReadVarint(data, base) == Ok((wire, p)) && wire % 8 == 0
    requires ReadVarint(data, p) == Ok((v, q)) && n == q - base
    ensures SkipField(data, base) == Ok(n)
  {
  }

  /**
   * Wire type 2 after a tag read from base to p: a length varint read from p
   * to q, as a Go int; a negative one is an invalid length, otherwise the
   * field ends `length` bytes after q, and a count n past the largest int
   * comes back wrapped, negative.
   */
  lemma SkipFramingBytes(data: seq<byte>, base: nat, wire: uint64, p: nat, len: uint64, q: nat, n: nat)
    requires base < |data| <= MaxInt
    requires ReadVarint(data, base) == Ok((wire, p)) && wire % 8 == 2
    requires ReadVarint(data, p) == Ok((len, q)) && n == q - base + len
    ensures len >= TWO63 ==> SkipField(data, base) == Err(InvalidLength)
    ensures n < TWO63 ==> SkipField(data, base) == Ok(n)
    ensures len < TWO63 && n >= TWO63 ==> SkipField(data, base) == Ok(n - TWO64)
  {
  }

  /** Wire type 3 after a tag read from base to p: the group loop from there. */
  lemma SkipFramingGroup(data: seq<byte>, base: nat, wire: uint64, p: nat)
    requires base < |data| <= MaxInt
    requires ReadVarint(data, base) == Ok((wire, p)) && wire % 8 == 3
    ensures SkipField(data, base) == SkipGroup(data, base, p - base)
  {
  }

  /** In the group loop at pos, a tag of wire type 4 ends the group just after it. */
  lemma GroupEndFraming(data: seq<byte>, base: nat, pos: int64, wire: uint64, p: nat)
    requires base < |data| <= MaxInt && pos >= 1
    requires ReadVarint(data, base + pos) == Ok((wire, p)) && wire % 8 == 4
    ensures SkipGroup(data, base, pos) == Ok(p - base)
  {
  }

  /** In the group loop at pos, a nested field that cannot be skipped fails the group with its error. */
  lemma GroupErrorFraming(data: seq<byte>, base: nat, pos: int64, wire: uint64, p: nat)
    requires base < |data| <= MaxInt && pos >= 1
    requires ReadVarint(data, base + pos) == Ok((wire, p)) && wire % 8 != 4
    requires SkipField(data, base + pos).Err?
    ensures SkipGroup(data, base, pos) == Err(SkipField(data, base + pos).error)
  {
  }

  /**
   * In the group loop at pos, a nested field skipped with length next: the
   * loop goes on after it, or rejects a length that is negative or takes
   * the position past the largest int.
   */
  lemma GroupNextFraming(data: seq<byte>, base: nat, pos: int64, wire: uint64, p: nat, next: int64)
    requires base < |data| <= MaxInt && pos >= 1
    requires ReadVarint(data, base + pos) == Ok((wire, p)) && wire % 8 != 4
    requires SkipField(data, base + pos) == Ok(next)
    ensures 0 <= next && pos + next < TWO63 ==> SkipGroup(data, base, pos) == SkipGroup(data, base, pos + next)
    ensures !(0 <= next && pos + next < TWO63) ==> SkipGroup(data, base, pos) == Err(InvalidLength)
  {
  }
}

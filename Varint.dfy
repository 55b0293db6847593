/**
 * Base-128 varints as used by the Protocol Buffers wire format ("Base 128
 * Varints" in the Encoding documentation): seven value bits per byte, least
 * significant group first, the high bit set on every byte but the last.
 */
module Varint {
  import opened Wire

  /** 128^k, the weight of the k-th seven-bit group (`1 << (7 * k)`). */
  function Pow128(k: nat): (p: nat)
    ensures p >= 1
  {
    if k == 0 then 1 else 128 * Pow128(k - 1)
  }

  /** The number of bytes in the varint of v: what sovEnvironment counts. */
  function VarintSize(v: nat): (n: nat)
    ensures n >= 1
  {
    if v < 128 then 1 else 1 + VarintSize(v / 128)
  }

  /** The minimal varint encoding of v, byte by byte. */
  function VarintBytes(v: nat): (r: seq<byte>)
    ensures |r| == VarintSize(v)
  {
    if v < 128 then [v] else [v % 128 + 128] + VarintBytes(v / 128)
  }

  /**
   * Every byte of the varint but the last has the 0x80 bit set, the last has
   * it clear, and the last is zero only for the value zero (the encoding is
   * minimal).
   */
  lemma {:induction false} VarintBytesShape(v: nat)
    ensures VarintBytes(v)[VarintSize(v) - 1] < 128
    ensures forall i :: 0 <= i < VarintSize(v) - 1 ==> VarintBytes(v)[i] >= 128
    ensures VarintBytes(v)[VarintSize(v) - 1] == 0 <==> v == 0
  {
    if v >= 128 {
      VarintBytesShape(v / 128);
      assert VarintBytes(v) == [v % 128 + 128] + VarintBytes(v / 128);
    }
  }

  /** A value needs at most k groups exactly when it is below 128^k. */
  lemma {:induction false} VarintSizeWithin(v: nat, k: nat)
    requires k >= 1
    ensures VarintSize(v) <= k <==> v < Pow128(k)
  {
    if v >= 128 && k > 1 {
      VarintSizeWithin(v / 128, k - 1);
    } else if v >= 128 {
      assert Pow128(1) == 128;
    }
  }

  /** sovEnvironment's result on a uint64 is between 1 and 10; it is 10 exactly from 2^63 on. */
  lemma VarintSizeOfUint64(v: uint64)
    ensures 1 <= VarintSize(v) <= 10
    ensures VarintSize(v) == 10 <==> v >= TWO63
  {
    assert Pow128(9) == TWO63 by {
      assert Pow128(1) == 128;
      assert Pow128(3) == 128 * 128 * 128;
    }
    assert Pow128(10) == 128 * TWO63;
    VarintSizeWithin(v, 10);
    VarintSizeWithin(v, 9);
  }

  /**
   * The varint decoding loop of environment.pb.go, written once for all the
   * places the source inlines it. Reading group k (shift 7 * k) fails with
   * overflow once the shift would reach 64 and with unexpected EOF when no
   * byte is left; a byte below 0x80 ends the varint. The value given here is
   * the exact number the groups from position i on denote (least significant
   * group first); ReadVarint reduces it modulo 2^64.
   */
  function ReadVarintFrom(data: seq<byte>, i: nat, k: nat): (r: Result<(nat, nat)>)
    ensures r.Ok? ==> i < r.value.1 <= |data| && r.value.1 <= i + 10 - k
    decreases 10 - k
  {
    if k >= 10 then Err(IntegerOverflow)
    else if i >= |data| then Err(UnexpectedEOF)
    else if data[i] < 128 then Ok((data[i], i + 1))
    else
      match ReadVarintFrom(data, i + 1, k + 1)
      case Err(e) => Err(e)
      case Ok((rest, end)) => Ok((data[i] - 128 + 128 * rest, end))
  }

  /**
   * Read one varint starting at pos: its value and the position after it.
   * Go ORs each group, shifted into place, into a uint64 and so drops the
   * bits shifted past bit 63; as the groups do not overlap, that is the exact
   * value modulo 2^64.
   */
  function ReadVarint(data: seq<byte>, pos: nat): (r: Result<(uint64, nat)>)
    ensures r.Ok? ==> pos < r.value.1 <= |data| && r.value.1 <= pos + 10
  {
    match ReadVarintFrom(data, pos, 0)
    case Err(e) => Err(e)
    case Ok((v, end)) => Ok((v % TWO64, end))
  }

  /** Decoding inverts encoding: the varint of v read back at any position gives v and the position after it. */
  lemma ReadVarintBytes(data: seq<byte>, pos: nat, v: uint64)
    requires pos + VarintSize(v) <= |data| && data[pos..pos + VarintSize(v)] == VarintBytes(v)
    ensures ReadVarint(data, pos) == Ok((v, pos + VarintSize(v)))
  {
    var x := VarintBytes(v);
    forall i | 0 <= i < |x|
      ensures data[pos + i] == x[i]
    {
      assert data[pos..pos + |x|][i] == x[i];
    }
    ReadVarintSpelled(data, pos, pos + VarintSize(v), v);
  }

  /**
   * The bytes of data from position a on spell x. Stated byte by byte, with
   * the bytes of x as the trigger, so that a fact of this form is only used
   * where a byte of x is asked about.
   */
  predicate Spells(data: seq<byte>, a: nat, x: seq<byte>)
  {
    a + |x| <= |data| && forall i {:trigger x[i]} :: 0 <= i < |x| ==> data[a + i] == x[i]
  }

  lemma SpellsWindow(data: seq<byte>, a: nat, x: seq<byte>)
    requires Spells(data, a, x)
    ensures data[a..a + |x|] == x
  {
    assert forall i :: 0 <= i < |x| ==> data[a..a + |x|][i] == x[i];
  }

  /** A window that spells x + y spells x, and y just after it. */
  lemma SpellsSplit(data: seq<byte>, a: nat, x: seq<byte>, y: seq<byte>, b: nat)
    requires Spells(data, a, x + y) && b == a + |x|
    ensures Spells(data, a, x) && Spells(data, b, y)
  {
    forall i | 0 <= i < |x|
      ensures data[a + i] == x[i]
    {
      assert (x + y)[i] == x[i];
    }
    forall i | 0 <= i < |y|
      ensures data[b + i] == y[i]
    {
      assert (x + y)[|x| + i] == y[i];
    }
  }

  /** The varint of v spelled from pos to end reads back as v. */
  lemma ReadVarintSpelled(data: seq<byte>, pos: nat, end: nat, v: uint64)
    requires end == pos + VarintSize(v) && Spells(data, pos, VarintBytes(v))
    ensures ReadVarint(data, pos) == Ok((v, end))
  {
    assert v % TWO64 == v;
    VarintSizeOfUint64(v);
    ReadVarintFromSpelled(data, pos, 0, v);
  }

  lemma {:induction false} ReadVarintFromSpelled(data: seq<byte>, i: nat, k: nat, w: nat)
    requires k + VarintSize(w) <= 10 && Spells(data, i, VarintBytes(w))
    ensures ReadVarintFrom(data, i, k) == Ok((w, i + VarintSize(w)))
    decreases w
  {
    assert data[i + 0] == VarintBytes(w)[0];
    if w >= 128 {
      var x := VarintBytes(w / 128);
      assert VarintBytes(w) == [w % 128 + 128] + x;
      forall j | 0 <= j < |x|
        ensures data[i + 1 + j] == x[j]
      {
        assert VarintBytes(w)[1 + j] == x[j];
      }
      ReadVarintFromSpelled(data, i + 1, k + 1, w / 128);
    }
  }

  lemma {:induction false} ReadVarintFromEOF(data: seq<byte>, i: nat, k: nat)
    requires i <= |data| && k + (|data| - i) < 10
    requires forall j :: i <= j < |data| ==> data[j] >= 128
    ensures ReadVarintFrom(data, i, k) == Err(UnexpectedEOF)
    decreases |data| - i
  {
    if i < |data| {
      ReadVarintFromEOF(data, i + 1, k + 1);
    }
  }

  /** A varint that runs past the end of the buffer before ten bytes are read is reported as unexpected EOF. */
  lemma ReadVarintTruncated(data: seq<byte>, pos: nat)
    requires pos <= |data| < pos + 10
    requires forall j :: pos <= j < |data| ==> data[j] >= 128
    ensures ReadVarint(data, pos) == Err(UnexpectedEOF)
  {
    ReadVarintFromEOF(data, pos, 0);
  }

  lemma {:induction false} ReadVarintFromOverflow(data: seq<byte>, i: nat, k: nat)
    requires k <= 10 && i + (10 - k) <= |data|
    requires forall j :: i <= j < i + (10 - k) ==> data[j] >= 128
    ensures ReadVarintFrom(data, i, k) == Err(IntegerOverflow)
    decreases 10 - k
  {
    if k < 10 {
      ReadVarintFromOverflow(data, i + 1, k + 1);
    }
  }

  /** Ten continuation bytes in a row make the shift reach 64: integer overflow. */
  lemma ReadVarintTooLong(data: seq<byte>, pos: nat)
    requires pos + 10 <= |data|
    requires forall j :: pos <= j < pos + 10 ==> data[j] >= 128
    ensures ReadVarint(data, pos) == Err(IntegerOverflow)
  {
    ReadVarintFromOverflow(data, pos, 0);
  }

  /** What a partly run decoding loop still adds: acc plus weight times the value of the remaining groups. */
  function Resume(acc: nat, weight: nat, rest: Result<(nat, nat)>): Result<(nat, nat)>
  {
    match rest
    case Err(e) => Err(e)
    case Ok((v, end)) => Ok((AddGroup(acc, weight, v), end))
  }

  /** acc plus a group value g placed at the given weight (`acc |= g << shift`). */
  function AddGroup(acc: nat, weight: nat, g: nat): nat
  {
    acc + weight * g
  }

  lemma ResumeStep(data: seq<byte>, i: nat, k: nat, acc: nat, weight: nat)
    requires k < 10 && i < |data| && data[i] >= 128
    ensures Resume(acc, weight, ReadVarintFrom(data, i, k))
         == Resume(AddGroup(acc, weight, data[i] - 128), 128 * weight, ReadVarintFrom(data, i + 1, k + 1))
  {
    var g := data[i] - 128;
    match ReadVarintFrom(data, i + 1, k + 1)
    case Err(e) =>
    case Ok((rest, end)) =>
      assert weight * (g + 128 * rest) == weight * g + (128 * weight) * rest;
  }

  /** The decoding loop as the source runs it: index-driven, one byte and one shift of 7 per group. */
  method ReadVarintAt(dAtA: array<byte>, pos: nat) returns (r: Result<(uint64, nat)>)
    ensures r == ReadVarint(dAtA[..], pos)
  {
    var k := 0;
    var acc: nat := 0;
    var weight: nat := 1;  // 1 << shift
    var i := pos;
    while true
      invariant 0 <= k <= 10 && i == pos + k
      invariant Resume(acc, weight, ReadVarintFrom(dAtA[..], i, k)) == ReadVarintFrom(dAtA[..], pos, 0)
      decreases 10 - k
    {
      if k >= 10 {
        return Err(IntegerOverflow);
      }
      if i >= dAtA.Length {
        return Err(UnexpectedEOF);
      }
      var b := dAtA[i];
      if b < 128 {
        assert ReadVarintFrom(dAtA[..], i, k) == Ok((b, i + 1));
        acc := AddGroup(acc, weight, b);
        return Ok((acc % TWO64, i + 1));
      }
      ResumeStep(dAtA[..], i, k, acc, weight);
      acc := AddGroup(acc, weight, b - 128);
      weight := 128 * weight;
      i := i + 1;
      k := k + 1;
    }
  }

  /** sovEnvironment: count groups, shifting right by seven until nothing is left. */
  method Sov(x: uint64) returns (n: int)
    ensures n == VarintSize(x)
  {
    n := 0;
    var y: nat := x;
    while true
      invariant n + VarintSize(y) == VarintSize(x)
      invariant n > 0 ==> y > 0
      decreases y
    {
      n := n + 1;
      var shifted := y / 128;
      if shifted == 0 {
        break;
      }
      y := shifted;
    }
  }

  /** `dAtA[i] = b`, stated on the whole array. */
  method PutByte(dAtA: array<byte>, i: nat, b: byte)
    requires i < dAtA.Length
    modifies dAtA
    ensures dAtA[..] == old(dAtA[..i]) + [b] + old(dAtA[i + 1..])
  {
    dAtA[i] := b;
    assert dAtA[..] == old(dAtA[..])[i := b];
  }

  /** Writing one more byte c at next extends what was written from offset on. */
  lemma SpliceNext(a0: seq<byte>, cur: seq<byte>, after: seq<byte>, offset: nat, next: nat, w: seq<byte>, c: byte)
    requires offset <= next < |a0| && |w| == next - offset
    requires cur == a0[..offset] + w + a0[next..]
    requires after == cur[..next] + [c] + cur[next + 1..]
    ensures after == a0[..offset] + (w + [c]) + a0[next + 1..]
  {
    assert cur[..next] == a0[..offset] + w;
    assert cur[next + 1..] == a0[next + 1..];
  }

  /** After the bytes w, the varint of x >= 128 continues with its low group and then the varint of x / 128. */
  lemma VarintBytesStep(w: seq<byte>, x: nat, v: nat)
    requires x >= 128 && w + VarintBytes(x) == VarintBytes(v)
    ensures (w + [x % 128 + 128]) + VarintBytes(x / 128) == VarintBytes(v)
    ensures VarintSize(x) == 1 + VarintSize(x / 128)
  {
    assert VarintBytes(x) == [x % 128 + 128] + VarintBytes(x / 128);
  }

  /** encodeVarintEnvironment: write the varint of v at offset and return the offset after it. */
  method EncodeVarint(dAtA: array<byte>, offset: nat, v: uint64) returns (next: nat)
    requires offset + VarintSize(v) <= dAtA.Length
    modifies dAtA
    ensures next == offset + VarintSize(v)
    ensures dAtA[..] == old(dAtA[..offset]) + VarintBytes(v) + old(dAtA[next..])
  {
    ghost var a0 := dAtA[..];
    ghost var w: seq<byte> := [];
    var x: nat := v;
    next := offset;
    while x >= 128
      invariant offset <= next && |w| == next - offset && next + VarintSize(x) == offset + VarintSize(v)
      invariant w + VarintBytes(x) == VarintBytes(v)
      invariant dAtA[..] == a0[..offset] + w + a0[next..]
      decreases x
    {
      var c := x % 128 + 128;
      ghost var cur := dAtA[..];
      PutByte(dAtA, next, c);
      SpliceNext(a0, cur, dAtA[..], offset, next, w, c);
      VarintBytesStep(w, x, v);
      w := w + [c];
      x := x / 128;
      next := next + 1;
    }
    ghost var cur := dAtA[..];
    PutByte(dAtA, next, x);
    SpliceNext(a0, cur, dAtA[..], offset, next, w, x);
    assert w + [x] == VarintBytes(v) by {
      assert VarintBytes(x) == [x];
    }
    next := next + 1;
  }

  /**
   * The zig-zag map applied by sozEnvironment before counting:
   * `(x << 1) ^ (int64(x) >> 63)` on 64 bits, which sends a signed value s
   * to 2s when s >= 0 and to -2s - 1 when s < 0.
   */
  function ZigZag(x: uint64): (z: uint64)
    ensures z % 2 == 0 <==> Int64Of(x) >= 0
  {
    var s := Int64Of(x);
    if s >= 0 then 2 * s else -2 * s - 1
  }

  /** The inverse map, as a decoder of zig-zag varints would apply it. */
  function UnZigZag(z: uint64): (x: uint64)
  {
    if z % 2 == 0 then z / 2 else TWO64 - (z + 1) / 2
  }

  /** ZigZag is a bijection on 64-bit values: UnZigZag undoes it and it undoes UnZigZag. */
  lemma ZigZagRoundTrip(x: uint64, z: uint64)
    ensures UnZigZag(ZigZag(x)) == x
    ensures ZigZag(UnZigZag(z)) == z
  {
    var s := Int64Of(x);
    if s < 0 {
      assert x == s + TWO64;
    }
    if z % 2 == 1 {
      assert Int64Of(UnZigZag(z)) == -((z + 1) / 2);
    }
  }

  /** sozEnvironment: the varint length of the zig-zag image; small magnitudes of either sign take one byte. */
  function Soz(x: uint64): (n: nat)
    ensures 1 <= n <= 10
    ensures -64 <= Int64Of(x) < 64 ==> n == 1
  {
    VarintSizeOfUint64(ZigZag(x));
    VarintSize(ZigZag(x))
  }
}

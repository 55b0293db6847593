/**
 * The test-data generators of environment.pb.go (NewPopulatedEnvironment and
 * its helpers) with the random source replaced by the values it hands out:
 * each generator takes the numbers it would draw, in the order it draws
 * them, and is a deterministic function of them. The point of the module is
 * that every record they can build satisfies the round trip.
 */
module Populate {
  import opened Wire
  import opened Varint
  import opened Record
  import opened UnknownFields
  import opened Encoding
  import opened Decoding
  import opened RoundTrip
  import EnvironmentPb

  /** encodeVarintPopulateEnvironment: append the varint of v, seven bits at a time. */
  method EncodeVarintPopulate(dAtA: seq<byte>, v: uint64) returns (r: seq<byte>)
    ensures r == dAtA + VarintBytes(v)
  {
    r := dAtA;
    var x: nat := v;
    while x >= 128
      invariant r + VarintBytes(x) == dAtA + VarintBytes(v)
      decreases x
    {
      assert VarintBytes(x) == [x % 128 + 128] + VarintBytes(x / 128);
      assert r + VarintBytes(x) == (r + [x % 128 + 128]) + VarintBytes(x / 128);
      r := r + [x % 128 + 128];
      x := x / 128;
    }
    assert VarintBytes(x) == [x];
    r := r + [x];
  }

  /** An ASCII digit or letter. */
  predicate IsAlnum(c: byte)
  {
    ('0' as int <= c <= '9' as int) || ('A' as int <= c <= 'Z' as int) || ('a' as int <= c <= 'z' as int)
  }

  /**
   * randUTF8RuneEnvironment for the draw `Intn(62)`: digits, then upper-case,
   * then lower-case letters. The rune is below 128, so as a string it is the
   * one byte of the same value.
   */
  function RandRune(ru: nat): (c: byte)
    requires ru < 62
    ensures IsAlnum(c)
  {
    if ru < 10 then ru + 48 else if ru < 36 then ru + 55 else ru + 61
  }

  /** The draw that gives an ASCII digit or letter. */
  function RuneIndex(c: byte): (ru: nat)
    requires IsAlnum(c)
    ensures ru < 62
  {
    if c <= '9' as int then c - 48 else if c <= 'Z' as int then c - 55 else c - 61
  }

  /** RandRune is a bijection from the 62 draws onto the ASCII digits and letters. */
  lemma RandRuneBijective(ru: nat, c: byte)
    requires ru < 62 && IsAlnum(c)
    ensures RuneIndex(RandRune(ru)) == ru
    ensures RandRune(RuneIndex(c)) == c
  {
  }

  /** The draws of randStringEnvironment: the length `Intn(100)`, then one rune draw per byte. */
  predicate StringDraws(draws: seq<nat>)
  {
    |draws| < 100 && forall i :: 0 <= i < |draws| ==> draws[i] < 62
  }

  /** The string a sequence of rune draws spells: one ASCII digit or letter per draw. */
  function RuneString(draws: seq<nat>): (s: seq<byte>)
    requires StringDraws(draws)
    ensures |s| == |draws| < 100
    ensures forall i :: 0 <= i < |s| ==> IsAlnum(s[i])
  {
    seq(|draws|, i requires 0 <= i < |draws| => RandRune(draws[i]))
  }

  /** randStringEnvironment: fill a buffer of the drawn length with drawn runes. */
  method RandString(draws: seq<nat>) returns (s: seq<byte>)
    requires StringDraws(draws)
    ensures s == RuneString(draws)
  {
    var tmps := new byte[|draws|];
    for i := 0 to |draws|
      invariant forall j :: 0 <= j < i ==> tmps[j] == RandRune(draws[j])
    {
      tmps[i] := RandRune(draws[i]);
    }
    s := tmps[..];
  }

  /**
   * The values randFieldEnvironment draws after the tag: for wire type 0
   * `Int63()` and `Intn(2)` (0 negates the value); otherwise the
   * `Intn(256)` bytes, eight for wire type 1, `Intn(100)` of them after
   * their count for wire type 2, four for any other wire type.
   */
  datatype FieldDraws = VarintDraws(v2: nat, flip: nat) | ByteDraws(bytes: seq<byte>)

  predicate DrawsFit(wire: nat, draws: FieldDraws)
  {
    match draws
    case VarintDraws(v2, flip) => wire == 0 && v2 < TWO63 && flip < 2
    case ByteDraws(b) =>
      && wire != 0
      && (wire == 1 ==> |b| == 8)
      && (wire == 2 ==> |b| < 100)
      && (wire != 1 && wire != 2 ==> |b| == 4)
  }

  /** `uint32(fieldNumber)<<3 | uint32(wire)`: the key wraps at 32 bits. */
  function PopulateKey(fieldNumber: nat, wire: nat): (key: nat)
    requires wire < 8
    ensures key < TWO32 && key % 8 == wire
    ensures fieldNumber < TWO29 ==> key == fieldNumber * 8 + wire
  {
    (fieldNumber % TWO32) * 8 % TWO32 + wire
  }

  /** The varint value wire type 0 writes: `uint64(v2)`, after `v2 *= -1` when the coin says so. */
  function DrawnVarint(v2: nat, flip: nat): (u: uint64)
    requires v2 < TWO63
    ensures flip != 0 ==> u == v2
    ensures flip == 0 && v2 > 0 ==> u == TWO64 - v2 && u >= TWO63
    ensures flip == 0 && v2 == 0 ==> u == 0
  {
    if flip == 0 then (TWO64 - v2) % TWO64 else v2
  }

  /** The unknown field randFieldEnvironment writes, as a value. */
  function DrawnField(fieldNumber: nat, wire: nat, draws: FieldDraws): (f: UnknownField)
    requires DrawsFit(wire, draws)
    ensures f.number == fieldNumber
  {
    match draws
    case VarintDraws(v2, flip) => UnknownField(fieldNumber, VarintValue(DrawnVarint(v2, flip)))
    case ByteDraws(b) =>
      if wire == 1 then UnknownField(fieldNumber, Fixed64Value(b))
      else if wire == 2 then UnknownField(fieldNumber, BytesValue(b))
      else UnknownField(fieldNumber, Fixed32Value(b))
  }

  /**
   * randFieldEnvironment: append the key, then the payload its wire type
   * frames. Whatever the draws, the bytes appended are the key's varint and
   * the payload of the drawn field.
   */
  method RandField(dAtA: seq<byte>, fieldNumber: nat, wire: nat, draws: FieldDraws) returns (r: seq<byte>)
    requires wire < 8 && DrawsFit(wire, draws)
    ensures r == dAtA + VarintBytes(PopulateKey(fieldNumber, wire)) + Payload(DrawnField(fieldNumber, wire, draws))
  {
    var key := PopulateKey(fieldNumber, wire);
    DrawnPayload(fieldNumber, wire, draws);
    r := EncodeVarintPopulate(dAtA, key);
    if wire == 0 {
      var v2 := draws.v2;
      var u := DrawnVarint(v2, draws.flip);
      r := EncodeVarintPopulate(r, u);
    } else if wire == 1 {
      r := r + draws.bytes;
    } else if wire == 2 {
      ghost var head := r;
      var ll := |draws.bytes|;
      r := EncodeVarintPopulate(r, ll);
      r := AppendDrawnBytes(r, draws.bytes);
      assert r == head + (VarintBytes(ll) + draws.bytes);
    } else {
      r := r + draws.bytes;
    }
  }

  /** The payload of the drawn field, by wire type. */
  lemma DrawnPayload(fieldNumber: nat, wire: nat, draws: FieldDraws)
    requires DrawsFit(wire, draws)
    ensures wire == 0 ==> Payload(DrawnField(fieldNumber, wire, draws)) == VarintBytes(DrawnVarint(draws.v2, draws.flip))
    ensures wire == 2 ==> Payload(DrawnField(fieldNumber, wire, draws)) == VarintBytes(|draws.bytes|) + draws.bytes
    ensures wire != 0 && wire != 2 ==> Payload(DrawnField(fieldNumber, wire, draws)) == draws.bytes
  {
  }

  /** The loop of wire type 2: append the drawn bytes one at a time. */
  method AppendDrawnBytes(dAtA: seq<byte>, bytes: seq<byte>) returns (r: seq<byte>)
    ensures r == dAtA + bytes
  {
    r := dAtA;
    for j := 0 to |bytes|
      invariant r == dAtA + bytes[..j]
    {
      assert bytes[..j + 1] == bytes[..j] + [bytes[j]];
      r := r + [bytes[j]];
    }
    assert bytes[..|bytes|] == bytes;
  }

  /** For the wire types the generator uses and a number below 2^29, the bytes are the drawn field's encoding. */
  lemma RandFieldEncoding(fieldNumber: nat, wire: nat, draws: FieldDraws)
    requires fieldNumber < TWO29 && wire in {0, 1, 2, 5} && DrawsFit(wire, draws)
    ensures ValidField(DrawnField(fieldNumber, wire, draws))
    ensures TagOf(DrawnField(fieldNumber, wire, draws)) == PopulateKey(fieldNumber, wire)
  {
  }

  /** What randUnrecognizedEnvironment draws per field: `Intn(4)` for the wire type, `Intn(100)` for the number, then the field's draws. */
  datatype UnknownDraw = UnknownDraw(wire: nat, number: nat, payload: FieldDraws)

  /** The wire type a draw stands for: 3 becomes 5, so only 0, 1, 2 and 5 occur. */
  function DrawnWire(w: nat): (wire: nat)
    ensures w < 4 ==> wire in {0, 1, 2, 5}
  {
    if w == 3 then 5 else w
  }

  /** The draws of randUnrecognizedEnvironment: the count `Intn(5)`, then the fields. */
  predicate UnknownDraws(draws: seq<UnknownDraw>)
  {
    && |draws| < 5
    && forall i :: 0 <= i < |draws| ==>
         draws[i].wire < 4 && draws[i].number < 100 && DrawsFit(DrawnWire(draws[i].wire), draws[i].payload)
  }

  /** The fields those draws produce, numbered from maxFieldNumber on. */
  function DrawnFields(maxFieldNumber: nat, draws: seq<UnknownDraw>): (fs: seq<UnknownField>)
    requires UnknownDraws(draws)
    ensures |fs| == |draws|
  {
    if |draws| == 0 then []
    else
      var d := draws[|draws| - 1];
      DrawnFields(maxFieldNumber, draws[..|draws| - 1])
        + [DrawnField(maxFieldNumber + d.number, DrawnWire(d.wire), d.payload)]
  }

  /** The i-th field drawn is numbered maxFieldNumber plus its number draw, in draw order. */
  lemma {:induction false} DrawnFieldsNumbered(maxFieldNumber: nat, draws: seq<UnknownDraw>)
    requires UnknownDraws(draws)
    ensures forall i :: 0 <= i < |draws| ==> DrawnFields(maxFieldNumber, draws)[i].number == maxFieldNumber + draws[i].number
    decreases |draws|
  {
    if |draws| > 0 {
      var init := draws[..|draws| - 1];
      DrawnFieldsNumbered(maxFieldNumber, init);
      assert forall i :: 0 <= i < |init| ==> init[i] == draws[i];
    }
  }

  /**
   * With maxFieldNumber at least 4 and small enough for the tag, every drawn
   * field is a well-formed field the schema does not know.
   */
  lemma {:induction false} DrawnFieldsUnknown(maxFieldNumber: nat, draws: seq<UnknownDraw>)
    requires UnknownDraws(draws) && 4 <= maxFieldNumber && maxFieldNumber + 100 <= TWO29
    ensures AllUnknown(DrawnFields(maxFieldNumber, draws))
    decreases |draws|
  {
    if |draws| > 0 {
      var d := draws[|draws| - 1];
      DrawnFieldsUnknown(maxFieldNumber, draws[..|draws| - 1]);
      RandFieldEncoding(maxFieldNumber + d.number, DrawnWire(d.wire), d.payload);
    }
  }

  /** randUnrecognizedEnvironment: append the drawn fields one after another. */
  method RandUnrecognized(maxFieldNumber: nat, draws: seq<UnknownDraw>) returns (dAtA: seq<byte>)
    requires UnknownDraws(draws) && maxFieldNumber + 100 <= TWO29
    ensures dAtA == Concat(DrawnFields(maxFieldNumber, draws))
  {
    dAtA := [];
    for i := 0 to |draws|
      invariant dAtA == Concat(DrawnFields(maxFieldNumber, draws[..i]))
    {
      var wire := draws[i].wire;
      if wire == 3 {
        wire := 5;
      }
      var fieldNumber := maxFieldNumber + draws[i].number;
      ghost var before := dAtA;
      ghost var f := DrawnField(fieldNumber, wire, draws[i].payload);
      dAtA := RandField(dAtA, fieldNumber, wire, draws[i].payload);
      AppendDrawn(maxFieldNumber, draws, i, fieldNumber, wire, f, before, dAtA);
    }
    assert draws[..|draws|] == draws;
  }

  /** One iteration of RandUnrecognized: the next field's encoding goes after the ones before. */
  lemma AppendDrawn(maxFieldNumber: nat, draws: seq<UnknownDraw>, i: nat, fn: nat, wire: nat,
                    f: UnknownField, before: seq<byte>, after: seq<byte>)
    requires UnknownDraws(draws) && maxFieldNumber + 100 <= TWO29 && i < |draws|
    requires fn == maxFieldNumber + draws[i].number && wire == DrawnWire(draws[i].wire)
    requires f == DrawnField(fn, wire, draws[i].payload)
    requires before == Concat(DrawnFields(maxFieldNumber, draws[..i]))
    requires after == before + VarintBytes(PopulateKey(fn, wire)) + Payload(f)
    ensures after == Concat(DrawnFields(maxFieldNumber, draws[..i + 1]))
  {
    RandFieldEncoding(fn, wire, draws[i].payload);
    AppendEncoding(before, f, PopulateKey(fn, wire), after);
    DrawnFieldsSnoc(maxFieldNumber, draws, i, f);
    ConcatSnoc(DrawnFields(maxFieldNumber, draws[..i]), f);
  }

  lemma AppendEncoding(before: seq<byte>, f: UnknownField, key: nat, after: seq<byte>)
    requires key == TagOf(f) && after == before + VarintBytes(key) + Payload(f)
    ensures after == before + FieldEncoding(f)
  {
  }

  lemma DrawnFieldsSnoc(maxFieldNumber: nat, draws: seq<UnknownDraw>, i: nat, f: UnknownField)
    requires UnknownDraws(draws) && i < |draws|
    requires f == DrawnField(maxFieldNumber + draws[i].number, DrawnWire(draws[i].wire), draws[i].payload)
    ensures DrawnFields(maxFieldNumber, draws[..i + 1]) == DrawnFields(maxFieldNumber, draws[..i]) + [f]
  {
    var ds := draws[..i + 1];
    assert ds[..i] == draws[..i] && ds[i] == draws[i];
  }

  lemma ConcatSnoc(fs: seq<UnknownField>, f: UnknownField)
    ensures Concat(fs + [f]) == Concat(fs) + FieldEncoding(f)
  {
    ConcatAppend(fs, [f]);
    assert Concat([f]) == FieldEncoding(f);
  }

  /** Every choice NewPopulatedEnvironment makes, in the order it makes them. */
  datatype PopulateDraws = PopulateDraws(
    description: seq<nat>,
    name: seq<nat>,
    organization: seq<nat>,
    keep: nat,                      // Intn(10); 0 drops the unrecognized bytes
    unknown: seq<UnknownDraw>)

  predicate PopulateFits(p: PopulateDraws)
  {
    && StringDraws(p.description) && StringDraws(p.name) && StringDraws(p.organization)
    && p.keep < 10 && UnknownDraws(p.unknown)
  }

  /** The unrecognized bytes a populated record gets: only when not easy and the draw is not 0, with numbers from 4. */
  function PopulatedTail(p: PopulateDraws, easy: bool): (fs: seq<UnknownField>)
    requires PopulateFits(p)
    ensures AllUnknown(fs)
  {
    DrawnFieldsUnknown(4, p.unknown);
    if !easy && p.keep != 0 then DrawnFields(4, p.unknown) else []
  }

  /** The record NewPopulatedEnvironment builds from its draws. */
  function PopulatedValue(p: PopulateDraws, easy: bool): (m: EnvironmentValue)
    requires PopulateFits(p)
    ensures |m.description| < 100 && |m.name| < 100 && |m.organization| < 100
    ensures AllUnknown(PopulatedTail(p, easy)) && m.unrecognized == Concat(PopulatedTail(p, easy))
  {
    EnvironmentValue(RuneString(p.description), RuneString(p.name), RuneString(p.organization),
                     Concat(PopulatedTail(p, easy)))
  }

  /** NewPopulatedEnvironment: three random strings and, unless easy, usually a random unknown tail. */
  method NewPopulatedEnvironment(p: PopulateDraws, easy: bool) returns (e: EnvironmentPb.Environment)
    requires PopulateFits(p)
    ensures fresh(e)
    ensures e.Value() == PopulatedValue(p, easy)
  {
    e := new EnvironmentPb.Environment();
    e.description := RandString(p.description);
    e.name := RandString(p.name);
    e.organization := RandString(p.organization);
    if !easy && p.keep != 0 {
      e.unrecognized := RandUnrecognized(4, p.unknown);
    }
  }

  /** A varint below 2^64 takes at most ten bytes, so a field's encoding here is at most 110. */
  lemma DrawnFieldLength(f: UnknownField)
    requires ValidField(f) && (f.value.BytesValue? ==> |f.value.bytes| < 100)
    ensures |FieldEncoding(f)| <= 110
  {
    TagBounds(f);
    VarintSizeOfUint64(TagOf(f));
    if f.value.VarintValue? {
      VarintSizeOfUint64(f.value.v);
    } else if f.value.BytesValue? {
      VarintSizeOfUint64(|f.value.bytes|);
    }
  }

  lemma {:induction false} DrawnTailLength(maxFieldNumber: nat, draws: seq<UnknownDraw>)
    requires UnknownDraws(draws) && maxFieldNumber + 100 <= TWO29
    ensures |Concat(DrawnFields(maxFieldNumber, draws))| <= 110 * |draws|
    decreases |draws|
  {
    if |draws| > 0 {
      var d := draws[|draws| - 1];
      var f := DrawnField(maxFieldNumber + d.number, DrawnWire(d.wire), d.payload);
      DrawnTailLength(maxFieldNumber, draws[..|draws| - 1]);
      RandFieldEncoding(maxFieldNumber + d.number, DrawnWire(d.wire), d.payload);
      DrawnFieldLength(f);
      ConcatAppend(DrawnFields(maxFieldNumber, draws[..|draws| - 1]), [f]);
      assert Concat([f]) == FieldEncoding(f);
    }
  }

  /**
   * Any record NewPopulatedEnvironment builds, marshalled and unmarshalled
   * into a fresh record, comes back Equal: its strings are shorter than 100
   * bytes, so each takes at most 101, and its tail is at most four
   * well-formed fields numbered 4 and up.
   */
  lemma PopulatedRoundTrip(p: PopulateDraws, easy: bool)
    requires PopulateFits(p)
    ensures |Encode(PopulatedValue(p, easy))| <= 3 * 101 + 4 * 110
    ensures Decode(Empty, Encode(PopulatedValue(p, easy))) == Outcome(PopulatedValue(p, easy), None)
    ensures Equal(Decode(Empty, Encode(PopulatedValue(p, easy))).record, PopulatedValue(p, easy))
  {
    var m := PopulatedValue(p, easy);
    DrawnTailLength(4, p.unknown);
    EncodeLength(m);
    RoundTrip.RoundTrip(m, PopulatedTail(p, easy));
  }
}

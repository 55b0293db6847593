/**
 * The bytes MarshalTo writes for an Environment ("Message Structure" in the
 * Protocol Buffers Encoding documentation): each non-empty string as its tag
 * `(field_number << 3) | 2`, the varint of its length and its bytes, in
 * field order 1, 2, 3, then the unrecognized bytes verbatim.
 */
module Encoding {
  import opened Wire
  import opened Varint
  import opened Record

  const DescriptionTag: byte := 0x0a   // field 1, wire type 2
  const NameTag: byte := 0x12          // field 2, wire type 2
  const OrganizationTag: byte := 0x1a  // field 3, wire type 2

  /** One length-delimited string field; an empty string is not written at all. */
  function FieldBytes(tag: byte, s: seq<byte>): (r: seq<byte>)
    ensures |s| == 0 ==> r == []
    ensures |s| > 0 ==> |r| == 1 + VarintSize(|s|) + |s| && r[0] == tag
  {
    if |s| == 0 then [] else [tag] + VarintBytes(|s|) + s
  }

  /** The encoding of a record, as MarshalTo lays it out. */
  function Encode(m: EnvironmentValue): (r: seq<byte>)
    ensures |m.unrecognized| <= |r| && r[|r| - |m.unrecognized|..] == m.unrecognized
    ensures |m.description| > 0 ==> 0 < |r| && r[0] == DescriptionTag
    ensures m.description == m.name == m.organization == [] ==> r == m.unrecognized
  {
    FieldBytes(DescriptionTag, m.description)
      + FieldBytes(NameTag, m.name)
      + FieldBytes(OrganizationTag, m.organization)
      + m.unrecognized
  }

  /** What Size adds for one string: nothing when empty, else 1 + len + sov(len). */
  function FieldSize(s: seq<byte>): (n: nat)
    ensures n == |FieldBytes(DescriptionTag, s)| == |FieldBytes(NameTag, s)| == |FieldBytes(OrganizationTag, s)|
  {
    if |s| == 0 then 0 else 1 + |s| + VarintSize(|s|)
  }

  /** The length of the encoding is the sum Size computes. */
  lemma EncodeLength(m: EnvironmentValue)
    ensures |Encode(m)| == FieldSize(m.description) + FieldSize(m.name) + FieldSize(m.organization) + |m.unrecognized|
  {
  }

  /** An empty string contributes no bytes; a non-empty one starts with its tag and length. */
  lemma FieldLayout(tag: byte, s: seq<byte>)
    ensures |s| == 0 <==> FieldBytes(tag, s) == []
    ensures |s| > 0 ==>
              && FieldBytes(tag, s)[0] == tag
              && FieldBytes(tag, s)[1..1 + VarintSize(|s|)] == VarintBytes(|s|)
              && FieldBytes(tag, s)[1 + VarintSize(|s|)..] == s
  {
    if |s| > 0 {
      var f := FieldBytes(tag, s);
      assert f == [tag] + VarintBytes(|s|) + s;
      assert f[1..1 + VarintSize(|s|)] == VarintBytes(|s|);
    }
  }

  /** ASCII text as the bytes a Go string holds. */
  function Ascii(s: string): (r: seq<byte>)
    requires forall i :: 0 <= i < |s| ==> s[i] as int < 128
    ensures |r| == |s|
    ensures forall i :: 0 <= i < |s| ==> r[i] == s[i] as int
  {
    if |s| == 0 then [] else [s[0] as int] + Ascii(s[1..])
  }

  /**
   * Description "svc-a", Name "", Organization "default" encodes as
   * 0a 05 "svc-a" 1a 07 "default": the empty name is omitted.
   */
  lemma ExampleEncoding()
    ensures Encode(EnvironmentValue(Ascii("svc-a"), [], Ascii("default"), []))
         == [0x0a, 0x05] + Ascii("svc-a") + [0x1a, 0x07] + Ascii("default")
  {
    assert VarintBytes(5) == [5];
    assert VarintBytes(7) == [7];
  }
}

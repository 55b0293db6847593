/**
 * The Environment record of environment.pb.go as a value: three proto3
 * string fields (raw bytes; the generated code makes no UTF-8 check) and
 * the bytes of the fields the schema does not know, kept for re-encoding.
 * Go distinguishes a nil XXX_unrecognized from an empty one, but neither
 * Size, MarshalTo nor Equal (bytes.Equal) can tell them apart, so both are
 * the empty sequence here.
 */
module Record {
  import opened Wire

  datatype EnvironmentValue = EnvironmentValue(
    description: seq<byte>,   // field 1
    name: seq<byte>,          // field 2
    organization: seq<byte>,  // field 3
    unrecognized: seq<byte>)  // XXX_unrecognized

  /** `Environment{}`: what Reset leaves and what a fresh record holds. */
  const Empty := EnvironmentValue([], [], [], [])

  /**
   * Equal: the three strings compared as strings and the unrecognized bytes
   * compared byte for byte. This is exactly equality of the values.
   */
  function Equal(a: EnvironmentValue, b: EnvironmentValue): (r: bool)
    ensures r <==> a == b
  {
    && a.description == b.description
    && a.name == b.name
    && a.organization == b.organization
    && a.unrecognized == b.unrecognized
  }

  /**
   * What decoding the encoding of m into an existing record m0 leaves: every
   * string m carries (a non-empty one, since empty ones are not encoded)
   * overwrites m0's, and m's unrecognized bytes are appended to m0's.
   */
  function Merge(m0: EnvironmentValue, m: EnvironmentValue): (r: EnvironmentValue)
    ensures m0 == Empty ==> r == m
    ensures r.unrecognized == m0.unrecognized + m.unrecognized
  {
    EnvironmentValue(
      if |m.description| > 0 then m.description else m0.description,
      if |m.name| > 0 then m.name else m0.name,
      if |m.organization| > 0 then m.organization else m0.organization,
      m0.unrecognized + m.unrecognized)
  }

  /** Merging in a and then b is merging in the merge of a and b. */
  lemma MergeAssociative(m0: EnvironmentValue, a: EnvironmentValue, b: EnvironmentValue)
    ensures Merge(Merge(m0, a), b) == Merge(m0, Merge(a, b))
  {
    assert (m0.unrecognized + a.unrecognized) + b.unrecognized == m0.unrecognized + (a.unrecognized + b.unrecognized);
  }
}

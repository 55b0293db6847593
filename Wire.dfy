/** Machine types of the Go code and the error values the codec returns. */
module Wire {

  const TWO32: int := 0x1_0000_0000
  const TWO63: int := 0x8000_0000_0000_0000
  const TWO64: int := 0x1_0000_0000_0000_0000

  /** The largest Go `int` on a 64-bit platform, and so the largest slice length. */
  const MaxInt: int := 0x7fff_ffff_ffff_ffff

  type byte = b: int | 0 <= b < 256
  type uint64 = x: int | 0 <= x < TWO64
  type int64 = x: int | -TWO63 <= x < TWO63

  /** Go's conversion of an integer to a 64-bit signed `int` (two's complement wrap). */
  function Int64Of(x: uint64): (r: int64)
    ensures x < TWO63 ==> r == x
    ensures x >= TWO63 ==> r == x - TWO64
  {
    if x < TWO63 then x else x - TWO64
  }

  /** Go's conversion `int32(x)`: keep the low 32 bits and read them as signed. */
  function Int32Of(x: int): (r: int)
    ensures -TWO32 / 2 <= r < TWO32 / 2
    ensures (x - r) % TWO32 == 0
    ensures 0 <= x < TWO32 / 2 ==> r == x
  {
    (x + TWO32 / 2) % TWO32 - TWO32 / 2
  }

  /** Go's `a + b` on two `int`s. */
  function Add64(a: int64, b: int64): (r: int64)
    ensures a >= 0 && b >= 0 && a + b < TWO63 ==> r == a + b
    ensures a >= 0 && b >= 0 && a + b >= TWO63 ==> r < 0
    ensures -TWO63 <= a + b < TWO63 ==> r == a + b
    ensures a + b >= TWO63 ==> r == a + b - TWO64
    ensures a + b < -TWO63 ==> r == a + b + TWO64
  {
    var s := a + b;
    if s >= TWO63 then s - TWO64 else if s < -TWO63 then s + TWO64 else s
  }

  /** The error values of environment.pb.go, one constructor per distinct message. */
  datatype Error =
    | IntegerOverflow                        // ErrIntOverflowEnvironment
    | UnexpectedEOF                          // io.ErrUnexpectedEOF
    | InvalidLength                          // ErrInvalidLengthEnvironment
    | EndGroupForNonGroup                    // "wiretype end group for non-group"
    | IllegalTag(fieldNum: int, wire: uint64)  // "illegal tag %d (wire type %d)"
    | WrongWireType(field: string, wireType: int)  // "wrong wireType = %d for field %s"
    | IllegalWireType(wireType: int)         // "illegal wireType %d" from the skipper

  datatype Option<+T> = None | Some(value: T)

  datatype Result<+T> = Ok(value: T) | Err(error: Error)
}

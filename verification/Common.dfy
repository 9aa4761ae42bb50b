/** Status codes and result types shared by every component. */
module Common {

  /** The error codes of `KSI_StatusCode` that the modelled functions return. */
  datatype Error =
    | InvalidArgument
    | InvalidFormat
    | BufferOverflow
    | PayloadTypeMismatch
    | UnavailableHashAlgorithm
    | InvalidSignature
    | ExtendWrongCalChain
    | VerificationFailure
    | UnknownError

  datatype Option<+T> = None | Some(value: T)

  datatype Result<+T> = Ok(value: T) | Err(error: Error)

  type byte = x: int | 0 <= x < 256

  const UINT64_LIMIT: int := 0x1_0000_0000_0000_0000
  const INT64_LIMIT: int := 0x8000_0000_0000_0000

  type uint64 = x: int | 0 <= x < UINT64_LIMIT

  /** A 64-bit unsigned value reinterpreted as a signed one, as a cast to `time_t` does. */
  function ToInt64(x: uint64): (r: int)
    ensures -INT64_LIMIT <= r < INT64_LIMIT
  {
    if x < INT64_LIMIT then x else x - UINT64_LIMIT
  }

  /** The low 32 bits of a value reinterpreted as a signed `int`. */
  function ToInt32(x: int): (r: int)
    ensures -0x8000_0000 <= r < 0x8000_0000
  {
    var low := x % 0x1_0000_0000;
    if low < 0x8000_0000 then low else low - 0x1_0000_0000
  }

  /** The decimal digits of a number, as characters. */
  function Decimal(n: nat): (s: seq<byte>)
    ensures s != [] && forall i | 0 <= i < |s| :: 48 <= s[i] <= 57
  {
    if n < 10 then [48 + n] else Decimal(n / 10) + [48 + n % 10]
  }
}

/** Shared vocabulary: the CLR integer widths the service uses, nullable
    references as Option, and the exceptions the core can throw as a Result. */
module Common {

  /** System.Int32 */
  type int32 = x: int | -0x8000_0000 <= x < 0x8000_0000

  /** System.Int64 */
  type int64 = x: int | -0x8000_0000_0000_0000 <= x < 0x8000_0000_0000_0000

  /** A C# reference that may be null. */
  datatype Option<+T> = None | Some(value: T)

  /** A call that either returns a value or throws. */
  datatype Result<+T> = Success(value: T) | Failure(error: Error)

  /** The exceptions the modelled code throws or lets escape. */
  datatype Error =
    | ArgumentError(paramName: Option<string>)  // ArgumentException
    | ArgumentNull(nullParam: string)     // ArgumentNullException
    | ArgumentOutOfRange                  // FromUnixTimeSeconds out of range, or an entry expiration <= 0
    | Overflow                            // array allocated with a negative length
    | HttpFailure                         // transport error, non-success status or malformed JSON
    | Aggregate(inner: seq<Error>)        // AggregateException

  /** string.IsNullOrEmpty */
  predicate IsNullOrEmpty(s: Option<string>) {
    s.None? || s.value == ""
  }
}

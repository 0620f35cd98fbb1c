/**
 * Shared vocabulary of the model: bytes, the fixed-width integers the Rust
 * source uses, and the outcome of a fallible call.
 *
 * The model follows the debug build of the source: an arithmetic overflow or
 * underflow on `u64`, an out-of-range slice or an `unwrap`/`expect` on a
 * missing value is a panic, which the model carries as an explicit `Panic`
 * outcome rather than excluding it by a precondition.
 */
module Base {

  type byte = b: int | 0 <= b < 256

  /** 2^64: one past the largest `u64`. */
  const U64_LIMIT: int := 0x1_0000_0000_0000_0000
  /** 2^63: one past the largest `i64`. */
  const I64_LIMIT: int := 0x8000_0000_0000_0000

  type u64 = x: int | 0 <= x < 0x1_0000_0000_0000_0000
  type i64 = x: int | -0x8000_0000_0000_0000 <= x < 0x8000_0000_0000_0000

  /**
   * The seconds since the Unix epoch that chrono 0.4's `DateTime<Utc>` can
   * hold: from 1 January of the year -262144 at midnight to 31 December of
   * the year 262143 at 23:59:59 (proleptic Gregorian calendar).
   */
  const MIN_TIMESTAMP: int := -8334632937600
  const MAX_TIMESTAMP: int := 8210298412799

  /** A time chrono can represent; `Utc.timestamp` and `DateTime::from` panic on any other. */
  predicate IsTimestamp(t: int)
  {
    MIN_TIMESTAMP <= t <= MAX_TIMESTAMP
  }

  /** The panic of `LocalResult::unwrap` on a time chrono cannot represent. */
  const NO_SUCH_LOCAL_TIME: string := "No such local time"

  datatype Option<+T> = None | Some(value: T)

  /** The error values the source's `Box<dyn Error>` carries, by cause. */
  datatype Error =
    | FileDoesNotExist          // crate::Error "file does not exist"
    | UnexpectedEof             // byteorder read past the end of the buffer
    | InvalidUtf8               // read_to_string on bytes that are not UTF-8
    | InvalidSeek               // Cursor seek to a negative or overflowing position
    | PosOverflow               // u64::from_str on a value of 2^64 or more
    | InvalidRangeHeader        // crate::Error "invalid range header"
    | MultipartRangesUnsupported
    | Io                        // an operating-system error (metadata, open)

  /**
   * The outcome of a call in the source: it returns `Ok`, returns `Err`,
   * panics, or never returns (`Diverge`, only the package decoder's loop).
   */
  datatype Result<+T> =
    | Ok(value: T)
    | Err(error: Error)
    | Panic(reason: string)
    | Diverge
  {
    /** The same failure, at another value type. */
    function PropagateFailure<U>(): (r: Result<U>)
      requires !Ok?
      ensures !r.Ok?
    {
      match this
      case Err(e) => Err(e)
      case Panic(m) => Panic(m)
      case Diverge => Diverge
    }
  }

  /** Passing a failure on through an intermediate type keeps it unchanged. */
  lemma PropagateTwice<T, U, V>(x: Result<T>)
    requires !x.Ok?
    ensures x.PropagateFailure<U>().PropagateFailure<V>() == x.PropagateFailure<V>()
  {
  }
}

/**
 * Shared vocabulary: Go's `(value, error)` returns, nullable values and instants.
 */
module Common {

  /** A Go call that returns a value or an error; the error is kept as its message (`err.Error()`). */
  datatype Result<+T> = Ok(value: T) | Err(msg: string)

  /** A nullable Go value (a pointer, a nil slice, an absent map entry). */
  datatype Option<+T> = None | Some(value: T)

  /** An instant (for instance nanoseconds since the epoch); Go's zero time is 0. */
  type Time = int

  /** The two's-complement wrap-around of Go's 64-bit `int` and `int64` arithmetic. */
  function Wrap64(x: int): (r: int)
    ensures -0x8000_0000_0000_0000 <= r < 0x8000_0000_0000_0000
    ensures (r - x) % 0x1_0000_0000_0000_0000 == 0
  {
    var m := x % 0x1_0000_0000_0000_0000;
    if m < 0x8000_0000_0000_0000 then m else m - 0x1_0000_0000_0000_0000
  }

  /** Whether `x` is representable in Go's 64-bit `int`. */
  predicate InInt64(x: int) {
    -0x8000_0000_0000_0000 <= x < 0x8000_0000_0000_0000
  }
}

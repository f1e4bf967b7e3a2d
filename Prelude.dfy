/** Shared vocabulary: Rust's Option and Result, and the fixed-width
    unsigned integer types the keymap format uses. */
module Prelude {

  /** Rust's u8, u16 and u32 as ranges of the unbounded integers. */
  type u8 = x: int | 0 <= x < 0x100
  type u16 = x: int | 0 <= x < 0x1_0000
  type u32 = x: int | 0 <= x < 0x1_0000_0000

  datatype Option<+T> = None | Some(value: T)

  /** Rust's Result; failure-compatible, so `:-` plays the part of `?`. */
  datatype Result<+T, +E> = Ok(value: T) | Err(error: E) {
    predicate IsFailure() {
      Err?
    }

    function PropagateFailure<U>(): Result<U, E>
      requires Err?
    {
      Err(error)
    }

    function Extract(): T
      requires Ok?
    {
      value
    }
  }

  /** Rust's Option::ok_or. */
  function OkOr<T, E>(o: Option<T>, e: E): Result<T, E> {
    match o
    case Some(v) => Ok(v)
    case None => Err(e)
  }
}

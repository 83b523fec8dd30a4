/** Small result types shared by every module. */
module Prelude {

  /** A value, or the failure that Go reports as a non-nil error; usable with `:-`. */
  datatype Option<+T> = None | Some(value: T) {

    predicate IsFailure() {
      None?
    }

    function PropagateFailure<U>(): Option<U>
      requires None?
    {
      None
    }

    function Extract(): T
      requires Some?
    {
      value
    }
  }

  /** A Go `(value, error)` pair whose error matters: either the value or the error, never both. */
  datatype Result<+T, +E> = Ok(value: T) | Err(error: E)
}

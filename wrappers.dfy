/** Optional values and results with an error, usable with `:-`. */
module Wrappers {

  /** A value that may be absent: C#'s `null` for a reference. */
  datatype Option<+T> = None | Some(value: T)

  /** Either a value or the error that the source would raise as an exception. */
  datatype Result<+T, +E> = Ok(value: T) | Err(error: E) {

    predicate IsFailure() {
      Err?
    }

    function PropagateFailure<U>(): Result<U, E>
      requires Err?
    {
      Err(error)
    }

    function Extract(): T
      requires Ok?
    {
      value
    }
  }
}

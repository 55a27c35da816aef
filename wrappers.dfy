/** Small failure-compatible wrappers shared by every module of the model. */
module Wrappers {

  /** A value that may be absent: a missing (NaN) cell of a DataFrame. */
  datatype Option<+T> = None | Some(value: T)

  /** The outcome of an operation that the source lets raise an exception. */
  datatype Result<+T, +E> = Ok(value: T) | Err(error: E) {
    predicate IsFailure() {
      Err?
    }

    function PropagateFailure<U>(): Result<U, E>
      requires Err?
    {
      Err(error)
    }

    function Extract(): T
      requires Ok?
    {
      value
    }
  }

  /** A field still holding Python's `None` placeholder, or a DataFrame column
      that has not been assigned yet. */
  datatype Slot<+T> = Unset | Set(value: T)
}

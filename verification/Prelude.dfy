/** The two failure-carrying datatypes used throughout the project. */
module Prelude {

  /** A value that may be absent: a nullable column, or a `fetchone` that found no row. */
  datatype Option<+T> = None | Some(value: T)

  /** The outcome of an operation: its value, or the error it raised. */
  datatype Result<+T, +E> = Ok(value: T) | Err(error: E) {

    predicate IsFailure() {
      Err?
    }

    function PropagateFailure<U>(): Result<U, E>
      requires Err?
    {
      Err(error)
    }

    function Extract(): T
      requires Ok?
    {
      value
    }
  }
}

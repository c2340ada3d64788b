/** Results of operations that the agent reports as a value or an error. */
module Wrappers {

  datatype Option<+T> = None | Some(value: T)

  /** The source raises an exception where this holds an `Err`. */
  datatype Result<+T, +E> = Ok(value: T) | Err(error: E) {
    predicate IsFailure() { Err? }

    function PropagateFailure<U>(): Result<U, E>
      requires Err?
    {
      Err(error)
    }

    function Extract(): T
      requires Ok?
    {
      value
    }
  }
}

/** Failure-carrying results for the operations of the model that raise in
    the original program. */
module Wrappers {

  datatype Option<+T> = None | Some(value: T)

  /** `Ok` carries the value an operation returns, `Err` the exception it raises. */
  datatype Result<+R, +E> = Ok(value: R) | Err(error: E) {
    predicate IsFailure() { Err? }

    function PropagateFailure<U>(): Result<U, E>
      requires Err?
    {
      Err(error)
    }

    function Extract(): R
      requires Ok?
    {
      value
    }
  }
}

/** Option and Result values, used for the places where the modelled Python
    code either has no answer or raises an exception. */
module Wrappers {

  datatype Option<+T> = None | Some(value: T)

  /** Success carries the computed value; Failure carries the error the
      Python code would raise (or report to the user) instead. */
  datatype Result<+R, +E> = Success(value: R) | Failure(error: E) {

    predicate IsFailure() {
      Failure?
    }

    function PropagateFailure<U>(): Result<U, E>
      requires Failure?
    {
      Failure(error)
    }

    function Extract(): R
      requires Success?
    {
      value
    }
  }
}

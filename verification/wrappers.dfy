/** Failure-carrying results shared by every module of the model.
    Python exceptions become `Err` values whose payload names the
    exception class the source raises; messages are not modelled. */
module Wrappers {

  datatype Option<+T> = None | Some(value: T)

  /** The Python exception classes the modelled code raises or catches. */
  datatype Error =
    | KeyError
    | RuntimeError
    | AttributeError
    | IndexError
    | TypeError
    | DatabaseError     // sqlite3.DatabaseError and its subclasses
    | RecursionError

  datatype Result<+T> = Ok(value: T) | Err(error: Error) {
    predicate IsFailure() {
      Err?
    }

    function PropagateFailure<U>(): Result<U>
      requires Err?
    {
      Err(error)
    }

    function Extract(): T
      requires Ok?
    {
      value
    }
  }
}

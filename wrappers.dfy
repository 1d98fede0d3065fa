/** Failure-carrying datatypes shared by the whole model, and the Python
    exceptions that the modelled code can raise. */
module Wrappers {

  datatype Option<+T> = None | Some(value: T) {
    function GetOr(default: T): T {
      match this
      case Some(v) => v
      case None => default
    }
  }

  datatype Result<+R, +E> = Success(value: R) | Failure(error: E)

  datatype Outcome<+E> = Pass | Fail(error: E)

  /** The exceptions raised by the modelled Python code. `KeyError` carries
      the missing key; the others carry nothing the model needs. */
  datatype PyError =
    | KeyError(key: string)
    | IndexError
    | ValueError
    | TypeError
    | ZeroDivisionError
    | UnboundLocalError
}

/** Option for the source's nullable values, Result for computations that
    may throw, and Outcome for the exceptions thrown on bad arguments. */
module Wrappers {

  datatype Option<+T> = None | Some(value: T) {
    function GetOr(default: T): T {
      match this
      case Some(v) => v
      case None => default
    }
  }

  /** Result of a computation that may throw: the value, or the exception's
      description. */
  datatype Result<+T> = Success(value: T) | Failure(error: string)

  /** Result of a call that may throw an ArgumentNullException */
  datatype Outcome = Pass | ArgumentNull(paramName: string)
}

/** Optional values and provider outcomes shared by every module. */
module Outcomes {

  /** Python's `Optional[T]`: a value or `None`. */
  datatype Option<+T> = None | Some(value: T) {
    function GetOr(default: T): T {
      match this
      case Some(v) => v
      case None => default
    }
  }

  /** The outcome of a call that may raise: a value, or the failure it raised. */
  datatype Result<+T> = Success(value: T) | Failure(reason: string)
}

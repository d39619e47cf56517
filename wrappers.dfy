/** Failure-carrying values and small helpers shared by the modules of this model. */
module Wrappers {

  datatype Option<+T> = None | Some(value: T) {
    function GetOr(default: T): T {
      match this
      case Some(v) => v
      case None => default
    }
  }

  datatype Result<+R, +E> = Success(value: R) | Failure(error: E)

  /** Whether a call into an external collaborator returned normally or raised,
      with the raised exception's `str(e)`. */
  datatype Outcome = Pass | Fail(error: string)

  /** The smaller of two integers, as Python's slice and `LIMIT` clamp to it. */
  function Min(a: int, b: int): int { if a <= b then a else b }
}

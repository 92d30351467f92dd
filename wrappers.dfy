/** Optional values and results, the model's stand-in for missing cells and raised exceptions. */
module Wrappers {

  /** A cell or lookup that may be absent (pandas NaN / NaT, a missing dict key). */
  datatype Option<+T> = None | Some(value: T) {

    /** The value, or `default` when absent (the effect of `fillna(default)` on one cell). */
    function GetOr(default: T): T {
      match this
      case Some(v) => v
      case None => default
    }

    predicate IsFailure() {
      None?
    }

    function PropagateFailure<U>(): Option<U>
      requires None?
    {
      None
    }

    function Extract(): T
      requires Some?
    {
      value
    }
  }

  /** A computation that returns normally (`Ok`) or raises (`Err`). */
  datatype Result<+T, +E> = Ok(value: T) | Err(error: E) {

    predicate IsFailure() {
      Err?
    }

    function PropagateFailure<U>(): Result<U, E>
      requires Err?
    {
      Err(error)
    }

    function Extract(): T
      requires Ok?
    {
      value
    }
  }
}

/** Failure-carrying datatypes shared by every module of the model.

    - Option<T> stands for a Python value that may be None.
    - Attempt<T> stands for a Python call that either returns a value or raises;
      the exception is kept only as its message (what `str(e)` would print).
 */
module Wrappers {

  datatype Option<+T> = None | Some(value: T) {

    /** The value, or the given default when None (Python `d.get(k, default)`). */
    function GetOr(default: T): T {
      match this
      case Some(v) => v
      case None => default
    }
  }

  datatype Attempt<+T> = Returned(value: T) | Raised(message: string)
}

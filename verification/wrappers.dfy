/** Optional values and may-fail results, used wherever the Python code
    returns None, raises, or catches an exception. */
module Wrappers {

  datatype Option<+T> = None | Some(value: T) {
    /** The value, or `default` when absent (Python's `dict.get(k, default)`). */
    function GetOr(default: T): T {
      match this
      case Some(v) => v
      case None => default
    }
  }

  /** `Failure(msg)` stands for a raised exception whose `str(e)` is `msg`. */
  datatype Result<+T, +E> = Success(value: T) | Failure(error: E)
}

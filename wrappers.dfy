/** Optional values: `None` stands for a missing cell or an undefined (NaN) statistic. */
module Wrappers {

  datatype Option<+T> = None | Some(value: T) {

    /** The wrapped value, or `default` when there is none. */
    function GetOr(default: T): T
    {
      match this
      case Some(v) => v
      case None => default
    }
  }

  /** The outcome of an operation the source may abort with an exception. */
  datatype Result<+T, +E> = Success(value: T) | Failure(error: E)
}

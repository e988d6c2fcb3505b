/** Optional values and success/failure results shared by the importer, the
    index builder and the query service. */
module Wrappers {

  /** `None` stands for a missing value (a NaN cell, a missing JSON key, an
      operation that did not happen). */
  datatype Option<+T> = None | Some(value: T) {

    /** The wrapped value, or `default` when there is none. */
    function GetOr(default: T): T {
      match this
      case Some(v) => v
      case None => default
    }
  }

  /** The outcome of a call that may raise: `Err` carries the exception text. */
  datatype Result<+T, +E> = Ok(value: T) | Err(error: E)
}

/** Option and Result, the stand-ins for Java's null and for a thrown exception. */
module Wrappers {

  datatype Option<T> = None | Some(value: T) {

    /** The value if present, else `default`. */
    function GetOr(default: T): T {
      match this
      case Some(v) => v
      case None => default
    }
  }

  datatype Result<T, E> = Success(value: T) | Failure(error: E)
}

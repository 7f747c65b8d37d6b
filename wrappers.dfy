/** Option and Result, standing for Java's nullable references and thrown exceptions. */
module Wrappers {

  datatype Option<T> = None | Some(value: T) {

    /** The value, or `default` when there is none. */
    function GetOr(default: T): T {
      match this
      case Some(v) => v
      case None => default
    }
  }

  datatype Result<T, E> = Success(value: T) | Failure(error: E)
}

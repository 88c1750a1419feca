/** Option and Result, as the services and controllers use them. */
module Wrappers {

  /** A value that may be absent: Java's nullable references and `Optional`. */
  datatype Option<+T> = None | Some(value: T) {

    /** The value, or `default` when absent. */
    function GetOr(default: T): T {
      match this
      case Some(v) => v
      case None => default
    }
  }

  /** A service call either returns a value or throws a RuntimeException carrying a message. */
  datatype Result<+T> = Success(value: T) | Failure(message: string)
}

/** Failure-carrying wrappers used by the model: an optional value (a Java
    reference that may be null, a protobuf message field that may be unset),
    a value-or-error result (a Java constructor that may throw), and a
    pass-or-fail outcome (a Java check that returns or throws). */
module Wrappers {

  datatype Option<+T> = None | Some(value: T) {
    /** The value, or `default` when absent. */
    function GetOr(default: T): T {
      match this
      case Some(v) => v
      case None => default
    }
  }

  datatype Result<+R, +E> = Success(value: R) | Failure(error: E)

  datatype Outcome<+E> = Pass | Fail(error: E)
}

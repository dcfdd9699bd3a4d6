/** The wrapper datatypes shared by the model: a nullable value and a
    success-or-error result. */
module Wrappers {

  /** A value that may be absent: C#'s nullable `T?` or a null reference. */
  datatype Option<+T> = None | Some(value: T) {

    /** The value when present, `default` otherwise (C#'s `??`). */
    function GetOr(default: T): T {
      match this
      case Some(v) => v
      case None => default
    }

    /** This option when present, `other` otherwise. */
    function OrElse(other: Option<T>): Option<T> {
      match this
      case Some(_) => this
      case None => other
    }
  }

  /** The outcome of an operation that can throw. */
  datatype Result<+R, +E> = Success(value: R) | Failure(error: E)
}

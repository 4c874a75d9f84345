/**
  Failure-carrying values. `Option` stands for the nullable references of the
  source (a C# `null` or an absent JSON field); `Result` stands for a call that
  either returns a value or throws an exception whose message is kept.
*/
module Wrappers {

  datatype Option<+T> = None | Some(value: T) {
    /** The value, or `default` when there is none (C#'s `??`). */
    function GetOr(default: T): T {
      match this
      case Some(v) => v
      case None => default
    }
  }

  /** `Failure` carries the exception message (`ex.Message`). */
  datatype Result<+T> = Success(value: T) | Failure(error: string)

  /** The outcome of a call that returns nothing but may throw. */
  datatype Outcome = Pass | Fail(error: string)
}

/** Option, Result and Outcome: the nullable values, thrown exceptions and
    `require` checks of the upload manager, as values. */
module Wrappers {

  /** A Kotlin nullable value: `None` stands for `null`. */
  datatype Option<+T> = None | Some(value: T) {
    function GetOr(default: T): T {
      match this
      case Some(v) => v
      case None => default
    }
  }

  /** The outcome of an operation that either yields a value or throws with a message. */
  datatype Result<+T, +E> = Success(value: T) | Failure(error: E)

  /** The outcome of a check that yields nothing or throws with a message. */
  datatype Outcome<+E> = Pass | Fail(error: E)
}

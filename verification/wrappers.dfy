/** Option, Result and Outcome: the nullable values and the exceptions of the app, as values. */
module Wrappers {

  /** A Kotlin nullable value (`T?`) or a Java reference that may be null. */
  datatype Option<+T> = None | Some(value: T)

  /** The value an operation returns, or the exception it throws. */
  datatype Result<+R, +E> = Success(value: R) | Failure(error: E) {

    /** Forgets the value: what a `void` method that may throw reports. */
    function ToOutcome(): Outcome<E>
    {
      match this
      case Success(_) => Pass
      case Failure(e) => Fail(e)
    }
  }

  /** What a `void` method that may throw reports: it returned, or it threw `error`. */
  datatype Outcome<+E> = Pass | Fail(error: E)
}

/** Outcome types shared by the model: an optional value, and a value or a fault. */
module Results {

  /** A value that may be absent, standing for Kotlin's nullable types. */
  datatype Option<+T> = None | Some(value: T)

  /**
   * Either the value an operation returns or the exception it throws; a
   * failure propagates through `:-` as an exception unwinds.
   */
  datatype Result<+T, +E> = Success(value: T) | Failure(error: E) {

    predicate IsFailure() {
      Failure?
    }

    /** The same failure, carried by a result of another value type. */
    function PropagateFailure<U>(): Result<U, E>
      requires Failure?
    {
      Failure(error)
    }

    function Extract(): T
      requires Success?
    {
      value
    }
  }
}

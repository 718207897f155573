/** Optional values and success/failure results, used for the decoders' error paths. */
module Results {

  /** A value that may be absent: Kotlin's nullable types. */
  datatype Option<+T> = None | Some(value: T)

  /** Either a decoded value or the reason decoding failed (the exception the source throws). */
  datatype Result<+T, +E> = Success(value: T) | Failure(error: E) {

    predicate IsFailure() {
      Failure?
    }

    function PropagateFailure<U>(): Result<U, E>
      requires Failure?
    {
      Failure(error)
    }

    function Extract(): T
      requires Success?
    {
      value
    }
  }
}

/** Failure-carrying values used in place of PHP exceptions.
    - Result<T, E>: a value or the error that prevented computing it
    - Option<T>: a value or null
    - Outcome<E>: success without a value, or an error
 */
module Results {

  /** The value of an operation that may throw: `Success` when it returned,
      `Failure` with the exception it raised otherwise. */
  datatype Result<+T, +E> = Success(value: T) | Failure(error: E)

  /** A value that may be absent (PHP's null). */
  datatype Option<+T> = None | Some(value: T)

  /** The status of an operation that returns nothing but may throw. */
  datatype Outcome<+E> = Pass | Fail(error: E)

  /** Runs a guard: `Pass` when `condition` holds, the given error otherwise. */
  function Need<E>(condition: bool, error: E): (r: Outcome<E>)
    ensures r.Pass? <==> condition
    ensures r.Fail? ==> r.error == error
  {
    if condition then Pass else Fail(error)
  }
}

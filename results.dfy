/** Results of operations that the C++ code ends by throwing an exception. */
module Results {

  /** A value, or the exception that aborted the computation of it. */
  datatype Result<+T, +E> = Success(value: T) | Failure(error: E)

  /** Normal completion of a `void` operation, or the exception it threw. */
  datatype Outcome<+E> = Pass | Fail(error: E)
}

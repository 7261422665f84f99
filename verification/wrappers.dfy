/** Failure-carrying results, used where the dashboard raises an exception. */
module Wrappers {

  /** Either the value an operation computed or the error it raised. */
  datatype Result<+T, +E> = Success(value: T) | Failure(error: E)
}

/** Small failure-carrying datatypes used across the model. */
module Wrappers {

  /** A value that may be absent, e.g. an optional command-line argument. */
  datatype Option<T> = None | Some(value: T)

  /** Either a successful value or an error value (the model of a raised exception). */
  datatype Result<T, E> = Success(value: T) | Failure(error: E)
}

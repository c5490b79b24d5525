/** Result types for operations whose Java signature declares a checked
    exception. */
module Wrappers {

  /** The value of a call that either returns normally or throws `error`. */
  datatype Result<+R, +E> = Success(value: R) | Failure(error: E)

  /** The outcome of a `void` call that either completes or throws `error`. */
  datatype Outcome<+E> = Pass | Fail(error: E)
}

/** Failure-carrying return values: Go's `(value, error)` pairs become a
    `Result`, and "a value or nothing" becomes an `Option`. */
module Wrappers {

  datatype Option<+T> = None | Some(value: T)

  datatype Result<+R, +E> = Success(value: R) | Failure(error: E)
}

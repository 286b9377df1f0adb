/** Failure-carrying values used in place of the exceptions the modelled code raises. */
module Wrappers {

  /** An optional value: `None` stands for a missing key, a failed read or a
      value Python would spell `None`. */
  datatype Option<+T> = None | Some(value: T)

  /** The value of an operation that either returns or raises. */
  datatype Result<+R, +E> = Success(value: R) | Failure(error: E)

  /** The outcome of a check that returns nothing or raises. */
  datatype Outcome<+E> = Pass | Fail(error: E)
}

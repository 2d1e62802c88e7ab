/** Failure-compatible result types used throughout the ledger model. */
module Wrappers {

  /** A value that may be absent: a missing map entry, an index not found,
      an optional filter, a text that does not parse. */
  datatype Option<+T> = None | Some(value: T)

  /** The outcome of an operation that either succeeds with a value or is
      rejected with an error value and changes nothing. */
  datatype Result<+T, +E> = Success(value: T) | Failure(error: E)
}

/** Failure-compatible wrappers: Option for "may be absent", Result for "may raise". */
module Wrappers {

  datatype Option<+T> = None | Some(value: T)

  datatype Result<+T, +E> = Success(value: T) | Failure(error: E)
}

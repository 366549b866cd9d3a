/** Absent values and error returns, shared by the store and the proxy. */
module Wrappers {

  /** A value that may be missing: `null` in TypeScript, `None` in Python. */
  datatype Option<+T> = None | Some(value: T)

  /** The outcome of a request handler: a value, or the HTTP error it raises. */
  datatype Result<+R, +E> = Success(value: R) | Failure(error: E)
}

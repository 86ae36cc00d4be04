/** Optional values and the outcomes of calls that may raise, shared by the modules of this model. */
module Wrappers {

  /** A value that may be absent (JavaScript's `undefined` / `null`). */
  datatype Option<+T> = None | Some(value: T)

  /** The value an awaited call resolves to, or the exception it raises. */
  datatype Result<+T, +E> = Success(value: T) | Failure(error: E)

  /** A call that resolves to nothing, or the exception it raises. */
  datatype Outcome<+E> = Pass | Fail(error: E)
}

/** Option and Result, the two failure-carrying wrappers the model uses for a
    missing value (a date coerced to "missing", an empty minimum) and for an
    error that stops a page from rendering. */
module Wrappers {

  /** A value that may be absent: `None` plays the part of pandas' NaT. */
  datatype Option<+T> = None | Some(value: T)

  /** Either a value or the error that prevented it. */
  datatype Result<+R, +E> = Success(value: R) | Failure(error: E)
}

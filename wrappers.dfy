/** Failure-compatible result types shared by the modules of this project. */
module Wrappers {

  /** A value that may be absent (Python's None). */
  datatype Option<+T> = None | Some(value: T)

  /** Either a value or the error that the Python code would raise. */
  datatype Result<+T, +E> = Success(value: T) | Failure(error: E)
}

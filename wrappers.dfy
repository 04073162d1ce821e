/** Option and Result datatypes shared by the modules of the complaint tracker. */
module Wrappers {

  /** A value that may be absent (TypeScript's `T | undefined`). */
  datatype Option<+T> = None | Some(value: T)

  /** Either a validated value or the one error message reported for it. */
  datatype Result<+R, +E> = Success(value: R) | Failure(error: E)
}

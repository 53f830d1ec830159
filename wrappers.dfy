/** Failure-carrying results shared by the modules of this model. */
module Wrappers {

  /** A value that may be missing: a TypeScript `null` return. */
  datatype Option<+T> = None | Some(value: T)

  /** A value, or the error the TypeScript library throws or rejects with. */
  datatype Result<+T, +E> = Ok(value: T) | Err(error: E)

  /** The outcome of an operation that returns nothing on success. */
  datatype Outcome<+E> = Pass | Fail(error: E)
}

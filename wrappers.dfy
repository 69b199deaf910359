/** Optional values and results with an error, as the model's other modules use them. */
module Wrappers {

  /** A value that may be missing: an `undefined` in the command-line tool. */
  datatype Option<+T> = None | Some(value: T)

  /** The outcome of a step that either yields a value or fails with an error. */
  datatype Result<+T, +E> = Ok(value: T) | Err(error: E)
}

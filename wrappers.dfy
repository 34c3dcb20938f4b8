/** Optional values and the outcome of a step that may throw. */
module Wrappers {

  /** A value that may be missing (an absent property, a failed call). */
  datatype Option<+T> = None | Some(value: T)

  /** The outcome of JavaScript code that either returns a value or throws. */
  datatype Result<+T> = Ok(value: T) | Thrown
}

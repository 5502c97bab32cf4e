/** Optional values and fallible results shared by every module of the model. */
module Wrappers {
  /** Python's `None` / TypeScript's `null` beside a present value. */
  datatype Option<+T> = None | Some(value: T)

  /** The outcome of an operation that either yields a value or fails with a message
      (a rejected promise or a raised `Error` in the source). */
  datatype Result<+T> = Ok(value: T) | Err(message: string)
}

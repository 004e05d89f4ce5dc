/** Optional values and the outcome of code that may throw. */
module Wrappers {

  /** `None` stands for JavaScript's `undefined` (or NaN where a number is expected). */
  datatype Option<+T> = None | Some(value: T)

  /** `Throws` stands for an exception that aborts the running event handler. */
  datatype Result<+T> = Ok(value: T) | Throws(reason: string)
}

/** Optional values and two-way results, used for the game record's optional
    resale price and for the outcome of the response-status check. */
module Wrappers {

  /** A value that may be absent (JavaScript's `null` / `undefined`). */
  datatype Option<+T> = None | Some(value: T)

  /** Either a value or an error carrying a description. */
  datatype Result<+T, +E> = Ok(value: T) | Err(error: E)
}

/** Optional values and fallible results, as the registry's API returns them. */
module Outcomes {

  /** An optional value (the source's `Option`). */
  datatype Option<+T> = None | Some(value: T)

  /** A value or an error (the source's `Result`). */
  datatype Result<+R, +E> = Ok(value: R) | Err(error: E)
}

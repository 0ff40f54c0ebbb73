/** Option and Result, the two failure-carrying shapes the rest of the model uses. */
module Wrappers {

  /** A value that may be missing: an absent JSON field, a failed lookup, a NaN. */
  datatype Option<+T> = None | Some(value: T)

  /** The outcome of a route handler: a value, or the error it reports. */
  datatype Result<+T, +E> = Ok(value: T) | Err(error: E)
}

/** Optional values and two-way results: the shapes the adapter expresses with
    JavaScript's `undefined`, `null` returns and thrown errors. */
module Options {

  /** `None` plays the part of `undefined` (or of a missing value). */
  datatype Option<+T> = None | Some(value: T)

  /** A computation that either produced a value or stopped with a reason. */
  datatype Result<+T, +E> = Ok(value: T) | Err(error: E)
}

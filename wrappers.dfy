/** A value that may be missing: JavaScript's `null` and `NaN` results. */
module Wrappers {
  datatype Option<+T> = None | Some(value: T)
}

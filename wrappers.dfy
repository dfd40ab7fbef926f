/** Ruby's `nil`-or-value, as produced by multiple assignment from a short array. */
module Wrappers {
  datatype Option<+T> = None | Some(value: T)
}

/**
 * An optional value: `None` marks a value the script does not produce, a NaN
 * z-score or a percentage whose division fails.
 */
module Wrappers {
  datatype Option<T> = None | Some(value: T)
}

/** A value that may be absent: Java's `null` or a missing result. */
module Wrappers {
  datatype Option<+T> = None | Some(value: T)
}

/** A value that may be absent: stands for a nullable pointer or an optional result. */
module Wrappers {
  datatype Option<+T> = None | Some(value: T)
}

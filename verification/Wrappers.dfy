/** A value that may be absent: the source's null pointers and error codes. */
module Wrappers {
  datatype Option<+T> = None | Some(value: T)
}

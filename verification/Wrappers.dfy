/** The optional value used wherever the Go code has a nullable pointer, a missing row or an error return. */
module Wrappers {
  datatype Option<+T> = None | Some(value: T)
}

/** The optional value used wherever the Go code has a "not found" or "not set" case. */
module Wrappers {

  datatype Option<+T> = None | Some(value: T)
}

/** The optional value used throughout: a Go nil or a missing row is `None`. */
module Wrappers {
  datatype Option<+T> = None | Some(value: T)
}

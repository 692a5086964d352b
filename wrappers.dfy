/** The optional value used where the Go code has a nil-able slice or a missing map entry. */
module Wrappers {

  datatype Option<+T> = None | Some(value: T)
}

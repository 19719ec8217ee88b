/** Option, used for Go's nil-able values and for an error that may be nil. */
module Wrappers {

  datatype Option<+T> = None | Some(value: T)
}

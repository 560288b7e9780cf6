/** The optional result of an operation that may end without a value. */
module Wrappers {

  datatype Option<+T> = None | Some(value: T)
}

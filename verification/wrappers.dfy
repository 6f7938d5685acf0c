/** The optional value used throughout the model for Go's nil pointers and
    failed parses. */
module Wrappers {
  datatype Option<+T> = None | Some(value: T)
}

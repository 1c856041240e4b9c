/** The optional value used throughout the model in place of Go's
    (value, ok) pairs and nullable SQL columns. */
module Wrappers {

  datatype Option<+T> = None | Some(value: T)
}

/** The optional value used throughout the project in place of a null pointer. */
module Wrappers {
  datatype Option<+T> = None | Some(value: T)
}

/** Option, used for operations that the C code leaves undefined or answers with an error. */
module Wrappers {
  datatype Option<+T> = None | Some(value: T)
}

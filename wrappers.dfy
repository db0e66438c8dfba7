/** The optional value used for every step that can raise an exception. */
module Wrappers {
  datatype Option<+T> = None | Some(value: T)
}

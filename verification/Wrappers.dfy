/** The optional value used wherever the sources return a null pointer or a failure flag. */
module Wrappers {
  datatype Option<+T> = None | Some(value: T)
}

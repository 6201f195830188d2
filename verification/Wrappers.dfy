/** Results of operations that the source ends with an assertion or an exception. */
module Wrappers {
  datatype Option<+T> = None | Some(value: T)
}

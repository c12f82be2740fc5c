/** The option type used where the C code returns a null pointer or an error code. */
module Wrappers {
  datatype Option<+T> = None | Some(value: T)
}

/** The option datatype, shared by all modules that have something that may be missing. */
module Wrappers {
  datatype Option<+T> = None | Some(value: T)
}

/** The optional value used for missing dictionary keys and absent options. */
module Wrappers {
  datatype Option<+T> = None | Some(value: T)
}

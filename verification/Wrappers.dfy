/** The optional values the model uses in place of the C code's NULL results. */
module Wrappers {
  datatype Option<+T> = None | Some(value: T)
}

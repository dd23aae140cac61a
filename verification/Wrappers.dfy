/** The result of a search or of a call that may return nothing. */
module Wrappers {
  datatype Option<+T> = None | Some(value: T)
}

/** Option: a value that may be absent (a failed integer parse, a missing match). */
module Wrappers {

  datatype Option<+T> = None | Some(value: T)
}

/** The optional value used for a poll that may fail and for a parse that may not succeed. */
module Wrappers {

  datatype Option<+T> = None | Some(value: T)
}

/** The optional value used for results that may be missing or malformed. */
module Wrappers {

  datatype Option<+T> = None | Some(value: T)
}

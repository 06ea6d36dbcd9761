/** The usual optional-value datatype, used for every "may fail" result. */
module Wrappers {

  datatype Option<+T> = None | Some(value: T)
}

/** The optional-value datatype used for nullable ids and for "did the run abort". */
module Wrappers {

  datatype Option<+T> = None | Some(value: T)
}

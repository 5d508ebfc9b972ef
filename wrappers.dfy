/** The optional-value datatype used for JavaScript's `null` and "not found". */
module Wrappers {

  datatype Option<+T> = None | Some(value: T)
}

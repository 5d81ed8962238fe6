/** The optional value used throughout the model for `null`, `undefined` and "no match". */
module Wrappers {

  datatype Option<+T> = None | Some(value: T)
}

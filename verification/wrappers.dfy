/** The optional-value datatype used for operations that can be refused. */
module Wrappers {

  datatype Option<+T> = None | Some(value: T)
}

/** The optional value used for the outcome of parsing a text field. */
module Wrappers {

  datatype Option<+T> = None | Some(value: T)
}

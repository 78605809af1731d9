/** The optional value used for the price oracle's answer and for parsed input. */
module Wrappers {

  datatype Option<+T> = None | Some(value: T)
}

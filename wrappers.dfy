/** The optional value used throughout the model for Swift's `Optional`. */
module Wrappers {

  datatype Option<+T> = None | Some(value: T)
}

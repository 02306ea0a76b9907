/** The optional value used throughout the model in place of Java's null. */
module Wrappers {

  datatype Option<+T> = None | Some(value: T)
}

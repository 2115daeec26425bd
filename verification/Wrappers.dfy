/** Small data types that several components share. */
module Wrappers {

  datatype Option<+T> = None | Some(value: T)

  /** A name or identifier, told apart from other strings. */
  datatype Name = Name(text: string)
}

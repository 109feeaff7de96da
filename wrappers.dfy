/** The optional value shared by the parser and the packer. */
module Wrappers {
  datatype Option<T> = None | Some(value: T)
}

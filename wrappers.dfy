/** The optional value used for the error outcomes of the lexer. */
module Wrappers {

  datatype Option<T> = None | Some(value: T)

}

/** Small failure-carrying datatypes shared by the lexer and parser models. */
module Wrappers {

  /** An optional value; the model of a Kotlin nullable reference. */
  datatype Option<+T> = None | Some(value: T)

  /** Either a value or an error; the model of a call that may throw. */
  datatype Result<+T, +E> = Ok(value: T) | Err(error: E)
}

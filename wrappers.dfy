/** Plain wrapper datatypes for nullable references and for code that may throw. */
module Wrappers {

  /** A value that may be absent: the model of a C# reference that may be null. */
  datatype Option<+T> = None | Some(value: T)

  /** The outcome of an expression that either yields a value or throws. */
  datatype Result<+R, +E> = Ok(value: R) | Err(error: E)

  /** The outcome of a statement that either completes or throws. */
  datatype Outcome<+E> = Pass | Fail(error: E)
}

/** Option and Result: the error paths of the modelled code (Python exceptions,
    None returns, JavaScript throws) become values of these types. */
module Wrappers {

  datatype Option<+T> = None | Some(value: T)

  datatype Result<+T, +E> = Ok(value: T) | Err(error: E)
}

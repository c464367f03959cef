/** Option and Result values for the routes' error paths. */
module Wrappers {

  datatype Option<+T> = None | Some(value: T)

  /** The outcome of a route: a value, or the error the route answers with. */
  datatype Result<+T, +E> = Ok(value: T) | Err(error: E)
}

/** Optional values and results: the model's stand-ins for SQL NULL,
    JavaScript `null`, and the error returns of the handlers. */
module Wrappers {

  datatype Option<+T> = None | Some(value: T)

  datatype Result<+T, +E> = Ok(value: T) | Err(error: E)
}

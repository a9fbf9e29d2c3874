/** Optional values and error returns, used where the Python code returns
    `None` or raises an exception that ends the current operation. */
module Wrappers {

  datatype Option<+T> = None | Some(value: T)

  datatype Result<+T, +E> = Ok(value: T) | Err(error: E)
}

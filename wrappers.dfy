/** Optional values and error-or-value results, used wherever the source
    returns `None`/`null`, throws, or answers with an error response. */
module Wrappers {

  datatype Option<+T> = None | Some(value: T)

  datatype Result<+T, +E> = Ok(value: T) | Err(error: E)
}

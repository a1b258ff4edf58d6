/** Optional values and results with an error, used for the relative, which may be absent,
    and for the constructors' failed requirements. */
module Wrappers {

  datatype Option<+T> = None | Some(value: T)

  datatype Result<+T, +E> = Ok(value: T) | Err(error: E)
}

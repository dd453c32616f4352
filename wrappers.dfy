/** Optional values and results: JavaScript's `null`/`undefined` and the early-return
    refusals of the handlers become these. */
module Wrappers {

  datatype Option<+T> = None | Some(value: T)

  datatype Result<+T, +E> = Ok(value: T) | Err(error: E)
}

/** Optional values and success-or-failure results, used for what the
    TypeScript source expresses as `undefined` and as thrown errors. */
module Wrappers {

  datatype Option<+T> = None | Some(value: T)

  datatype Result<+T, +E> = Ok(value: T) | Err(error: E)
}

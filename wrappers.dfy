/** Optional values and results with an error, used for the absent fields of a raw
    record and for the loader's hard errors. */
module Wrappers {

  datatype Option<+T> = None | Some(value: T)

  datatype Result<+T, +E> = Success(value: T) | Failure(error: E)
}

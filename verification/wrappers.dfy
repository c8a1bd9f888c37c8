/** Optional values and results with an error, the shapes every boundary
    operation of the gateway returns instead of terminating the process. */
module Wrappers {

  datatype Option<+T> = None | Some(value: T)

  datatype Result<+R, +E> = Success(value: R) | Failure(error: E)
}

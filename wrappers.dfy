/** Optional values and results with an error, used for the responses of the
    metadata service and for the outcome of a search. */
module Wrappers {

  datatype Option<+T> = None | Some(value: T)

  datatype Result<+R, +E> = Success(value: R) | Failure(error: E)
}

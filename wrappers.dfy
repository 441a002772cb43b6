/** Failure-carrying results: the model's stand-in for a Python exception
    that propagates out of a call, or for an index that does not exist. */
module Wrappers {

  datatype Option<+T> = None | Some(value: T)

  datatype Result<+R, +E> = Success(value: R) | Failure(error: E)
}

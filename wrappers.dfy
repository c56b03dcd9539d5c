/** Failure-carrying results shared by the whole model: Python's exceptions
    become the Failure/Fail cases, a missing value becomes None. */
module Wrappers {

  datatype Option<+T> = None | Some(value: T)

  datatype Result<+R, +E> = Success(value: R) | Failure(error: E)

  datatype Outcome<+E> = Pass | Fail(error: E)
}

/** Failure-compatible wrappers used by the planner: an optional value and a
    result that is either a success value or the reason the run aborted. */
module Wrappers {

  datatype Option<+T> = None | Some(value: T)

  datatype Result<+R, +E> = Success(value: R) | Failure(error: E)
}

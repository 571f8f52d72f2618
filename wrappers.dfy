/** Failure-carrying results shared by the modules of the route planner. */
module Wrappers {

  /** A value that may be missing: the outcome of a numeric conversion that can fail. */
  datatype Option<+T> = None | Some(value: T)

  /** The outcome of a request handler: a value, or the error it reports. */
  datatype Result<+R, +E> = Success(value: R) | Failure(error: E)
}

/** Failure-carrying datatypes shared by the other modules. */
module Wrappers {

  /** A value that may be absent: a null `char *` from strtok, an empty priority queue. */
  datatype Option<+T> = None | Some(value: T)

  /** The outcome of a step that can abort the evaluation run. */
  datatype Result<+R, +E> = Success(value: R) | Failure(error: E)
}

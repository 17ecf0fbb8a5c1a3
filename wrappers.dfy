/** Failure-carrying values used at the boundary with the completion service. */
module Wrappers {

  /** A value that may be absent: the completion service either produced a reply or did not. */
  datatype Option<+T> = None | Some(value: T)

  /** The outcome of a chat turn: the reply text, or the error raised to the caller. */
  datatype Result<+R, +E> = Success(value: R) | Failure(error: E)
}

/** Failure-compatible result types shared by the geometry modules. */
module Wrappers {

  /** An optional value; `None` plays the part of Java's `null`. */
  datatype Option<+T> = None | Some(value: T)

  /** Either a constructed value or the reason construction was refused. */
  datatype Result<+R, +E> = Success(value: R) | Failure(error: E)
}

/** Failure-compatible result types shared by the quadrature engine. */
module Wrappers {

  /** An optional value: `None` when a lookup finds nothing. */
  datatype Option<+T> = None | Some(value: T)

  /** A value, or the error that prevented computing it. */
  datatype Result<+T, +E> = Ok(value: T) | Err(error: E)
}

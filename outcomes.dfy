/** Option and Result, the shapes of "maybe absent" and "may raise" in the model. */
module Outcomes {

  /** Python's `None` or a present value. */
  datatype Option<+T> = None | Some(value: T)

  /** A normal return or a raised exception. */
  datatype Result<+T, +E> = Ok(value: T) | Err(error: E)
}

/** The value-or-nothing datatypes the other modules share. */
module Wrappers {

  /** Python's `None`, and NaN in the float kernels, are `None` here. */
  datatype Option<+T> = None | Some(value: T)

  /** A float cell; NaN is `None`. */
  type Cell = Option<real>

  /** A returned value, or the exception raised instead. */
  datatype Result<+T, +E> = Ok(value: T) | Err(error: E)
}

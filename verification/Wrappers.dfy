/** The failure-compatible values shared by every module. */
module Wrappers {
  /** A nullable column or an optional Python value. */
  datatype Option<+T> = None | Some(value: T)

  /** A call that either returns a value or raises. */
  datatype Result<+T, +E> = Ok(value: T) | Err(error: E)
}

/** Small shared helpers: an optional value and the minimum of two integers. */
module Wrappers {

  /** A value that may be missing: a Python `None`, or a call that raised. */
  datatype Option<+T> = None | Some(value: T)

  function Min(a: int, b: int): int
  {
    if a <= b then a else b
  }
}

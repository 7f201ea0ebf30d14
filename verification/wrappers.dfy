/**
 * Values that may be missing, and the conversion of a real number to an
 * integer as C and C++ do it.
 */
module Wrappers {

  datatype Option<+T> = None | Some(value: T)

  /** Drops the fraction. */
  function Truncate(v: real): int {
    if v >= 0.0 then v.Floor else -((-v).Floor)
  }
}

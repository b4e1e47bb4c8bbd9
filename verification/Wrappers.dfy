/** The optional value used by every entity whose source field is optional. */
module Wrappers {

  datatype Option<+T> = None | Some(value: T) {
    function GetOr(default: T): T {
      match this
      case Some(v) => v
      case None => default
    }

    /** The receiver when it holds a value, otherwise `other`. */
    function Or(other: Option<T>): Option<T> {
      if Some? then this else other
    }
  }

  /** The unsigned 64-bit integers of the source. */
  const U64_MAX: nat := 0xFFFF_FFFF_FFFF_FFFF
  type U64 = n: nat | n <= U64_MAX witness 0

  function SaturatingIncrement(n: U64): U64 {
    if n == U64_MAX then n else n + 1
  }
}

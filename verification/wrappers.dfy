/** A value that may be missing: a Python dict key that was never set, or a
    JavaScript property that is undefined. */
module Wrappers {

  datatype Option<+T> = None | Some(value: T) {

    /** The value when present, and `fallback` when it is missing */
    function GetOr(fallback: T): T {
      match this
      case Some(v) => v
      case None() => fallback
    }
  }
}

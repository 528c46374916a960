/** The optional value used wherever the scripts read something that may be
    missing: an absent storage key, a `null` JSON field, a `NaN` number. */
module Wrappers {

  datatype Option<+T> = None | Some(value: T) {

    /** The value, or `default` when there is none (JavaScript's `??`). */
    function GetOr(default: T): T {
      match this
      case Some(v) => v
      case None => default
    }
  }
}

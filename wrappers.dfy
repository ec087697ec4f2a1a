/** Optional values, standing for Ruby's nil. */
module Wrappers {

  /** `None` is nil; `Some(v)` is a value that is present. */
  datatype Option<+T> = None | Some(value: T) {

    /** The value, or `default` when nil. */
    function GetOr(default: T): T {
      match this
      case Some(v) => v
      case None => default
    }
  }
}

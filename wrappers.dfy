/** The optional-value type used for Python's None results and for lookups that raise KeyError. */
module Wrappers {

  datatype Option<+T> = None | Some(value: T) {

    /** The value, or the given default when None. */
    function GetOr(default: T): T {
      match this
      case Some(v) => v
      case None => default
    }
  }
}

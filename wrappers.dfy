/** The Option type used wherever a JSON key may be absent or a call may yield None. */
module Wrappers {

  datatype Option<+T> = None | Some(value: T) {

    /** The value, or the given default when absent (Python's `dict.get(key, default)`). */
    function GetOr(default: T): T {
      match this
      case Some(v) => v
      case None => default
    }
  }
}

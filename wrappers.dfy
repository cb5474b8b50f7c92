/** The optional-value wrapper used throughout the model for Python's `None`. */
module Wrappers {

  datatype Option<+T> = None | Some(value: T) {

    /** `value` when present, `default` otherwise (Python's `d.get(key, default)`). */
    function GetOr(default: T): T {
      match this
      case Some(v) => v
      case None => default
    }
  }
}

/** The optional value used throughout the model for Python's `None`. */
module Opt {

  datatype Option<+T> = None | Some(value: T) {

    /** `x if x is not None else default`, as `dict.get(key, default)` uses it. */
    function GetOr(default: T): T {
      match this
      case Some(v) => v
      case None => default
    }
  }
}

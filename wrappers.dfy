/** Small failure-compatible helper types shared by the modules of this model. */
module Wrappers {

  /** An optional value: JavaScript's `undefined` / `null` versus a present value. */
  datatype Option<+T> = None | Some(value: T) {

    /** The value, or `default` when absent (JavaScript's `x ?? default`). */
    function GetOr(default: T): T {
      match this
      case Some(v) => v
      case None => default
    }
  }
}

/** A value that may be absent: JavaScript's `undefined` / `null`, a
    `find` that found nothing, or `parseFloat` returning NaN. */
module Wrappers {

  datatype Option<+T> = None | Some(value: T) {

    /** The value, or `default` when absent (JavaScript's `x || default` on objects). */
    function GetOr(default: T): T {
      match this
      case Some(v) => v
      case None => default
    }
  }
}

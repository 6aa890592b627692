/** The Option type used for the JavaScript `null` results of the colour parsers. */
module Wrappers {
  datatype Option<+T> = None | Some(value: T) {
    /** `x || fallback` on a value that is either an object or null. */
    function GetOr(default: T): T {
      match this
      case Some(v) => v
      case None => default
    }
  }
}

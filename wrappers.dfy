/** Optional values, standing for JavaScript's `undefined`/`null` fields and PHP's `??` defaults. */
module Wrappers {

  datatype Option<+T> = None | Some(value: T) {

    /** The value, or `default` when absent (PHP's `$x ?? default`). */
    function GetOr(default: T): T
    {
      match this
      case Some(v) => v
      case None => default
    }
  }
}

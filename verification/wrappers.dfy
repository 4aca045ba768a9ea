/** Optional values and partial-update fields. */
module Wrappers {

  /** A value that may be missing: JavaScript's `null` / `undefined`. */
  datatype Option<+T> = None | Some(value: T) {

    /** The carried value, or `default` when missing (JavaScript's `??`). */
    function GetOr(default: T): T {
      match this
      case Some(v) => v
      case None => default
    }
  }

  /** One key of a partial object that is spread over a record: the key is
      either absent from the object (`Keep`) or present with a value (`Set`). */
  datatype Patch<+T> = Keep | Set(value: T) {

    /** The field after `{ ...prev, ...patch }`. */
    function Over(prev: T): T {
      match this
      case Keep => prev
      case Set(v) => v
    }
  }
}

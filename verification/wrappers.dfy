/** Optional values, used for a lookup that may find nothing and for a
    record key that may be absent from a stored document. */
module Wrappers {

  datatype Option<+T> = None | Some(value: T) {

    /** The value held, or `default` when there is none (a dict's `get` with a default). */
    function GetOr(default: T): T {
      match this
      case Some(v) => v
      case None => default
    }
  }
}

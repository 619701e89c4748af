/** Optional values: Kotlin's nullable types and `?.`/`?:` chains are modelled with `Option`. */
module Wrappers {

  datatype Option<+T> = None | Some(value: T) {

    /** Kotlin's `x ?: default`. */
    function GetOr(default: T): T {
      match this
      case Some(v) => v
      case None => default
    }
  }
}

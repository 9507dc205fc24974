/** Optional values: Kotlin's nullable types (`String?`, `Int?`) and unset LiveData values. */
module Wrappers {

  datatype Option<+T> = None | Some(value: T) {

    /** `this ?: default` */
    function GetOr(default: T): T {
      match this
      case Some(v) => v
      case None => default
    }
  }
}

/** The nullable values of the Kotlin source (`T?`), as an explicit datatype. */
module Wrappers {

  /** `None` stands for Kotlin's `null`. */
  datatype Option<+T> = None | Some(value: T) {

    /** The value, or `default` when this is `None` (Kotlin's `?:`). */
    function GetOr(default: T): T
    {
      match this
      case Some(v) => v
      case None => default
    }
  }
}

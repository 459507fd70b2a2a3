/** Small value wrappers shared by the whole model. */
module Common {

  /** A value that may be absent: TypeScript's `T | null` or `T | undefined`. */
  datatype Option<+T> = None | Some(value: T) {

    /** The carried value, or `default` when absent. */
    function GetOr(default: T): T {
      match this
      case Some(v) => v
      case None => default
    }
  }
}

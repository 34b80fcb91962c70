/** A value that may be absent: a JSON field that is missing (or null). */
module Optional {

  datatype Option<+T> = None | Some(value: T) {

    /** The value, or `default` when absent: the `??` operator. */
    function GetOr(default: T): T {
      match this
      case Some(v) => v
      case None => default
    }
  }
}

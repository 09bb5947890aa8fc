/** A value that may be absent: a database NULL or a pandas NaN cell. */
module Options {

  datatype Option<+T> = None | Some(value: T) {

    /** The value, or `default` when absent (pandas `fillna(default)`). */
    function GetOr(default: T): T {
      match this
      case Some(v) => v
      case None => default
    }
  }
}

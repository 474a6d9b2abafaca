/** The conventional Some/None datatype, used for JSON nulls and failed parses. */
module Optional {

  datatype Option<+T> = None | Some(value: T) {

    /** The encapsulated value, or `default` for None (Polars' `fill_null`). */
    function GetOr(default: T): T {
      match this
      case Some(v) => v
      case None => default
    }
  }
}

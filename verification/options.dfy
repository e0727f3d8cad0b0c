/** Missing values. A parsed timestamp, a customer id, a name, a quantity, a product
    type or a referring site may be absent in the dashboard's tables (pandas NaN /
    NaT); the model carries that as an Option. */
module Options {

  datatype Option<+T> = None | Some(value: T) {

    /** The value, or `default` when it is missing (pandas' fillna). */
    function GetOr(default: T): T {
      match this
      case Some(v) => v
      case None => default
    }
  }
}

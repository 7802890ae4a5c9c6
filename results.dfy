/** Success/failure values standing in for Python exceptions and for
    Twisted's `succeed`/`fail` Deferreds, which this model treats as
    synchronous results. */
module Results {

  datatype Option<+T> = None | Some(value: T) {
    function GetOr(default: T): T {
      match this
      case Some(v) => v
      case None => default
    }
  }

  datatype Result<+T, +E> = Ok(value: T) | Err(error: E)
}

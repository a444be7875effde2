/** Absent values and error returns. A JavaScript `undefined` field is `None`; a
    rejected Mongoose save is `Err`. */
module Optional {

  datatype Option<+T> = None | Some(value: T) {
    /** The wrapped value, or `default` when absent. */
    function GetOr(default: T): T {
      if Some? then value else default
    }
  }

  datatype Result<+T, +E> = Ok(value: T) | Err(error: E)
}

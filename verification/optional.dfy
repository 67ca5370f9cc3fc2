/** Python's `None`-or-value, used wherever the modelled code returns or
    stores `None`. */
module Optional {

  datatype Option<+T> = None | Some(value: T) {

    /** The value, or `default` for `None` (Python's `x or default` when the
        value itself is truthy). */
    function GetOr(default: T): T {
      match this
      case Some(v) => v
      case None => default
    }
  }
}

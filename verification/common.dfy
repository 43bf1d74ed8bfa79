/** Helper datatypes shared by every module of the model. */
module Common {

  /** A value that may be absent: an absent document, a null text
      cursor, or a character-format property that was never set. */
  datatype Option<+T> = None | Some(value: T) {

    /** The value if present, `default` otherwise. */
    function GetOr(default: T): T {
      match this
      case Some(v) => v
      case None => default
    }
  }
}

/** Option and Result values shared by the modules of the voice-to-text model. */
module Common {

  /** A value that may be absent (Python's `None`). */
  datatype Option<+T> = None | Some(value: T) {
    function GetOr(default: T): T {
      match this
      case Some(v) => v
      case None => default
    }
  }

  /** The outcome of a step that may raise: a value, or the message of the exception. */
  datatype Result<+T> = Ok(value: T) | Err(reason: string)

  function Min(a: int, b: int): int {
    if a <= b then a else b
  }
}

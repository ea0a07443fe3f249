/** Failure-carrying wrappers shared by every module of the model. */
module Base {

  /** A value that may be absent: Python's None, a missing dict key, a pandas NA. */
  datatype Option<+T> = None | Some(value: T) {
    function GetOr(default: T): T {
      match this
      case Some(v) => v
      case None => default
    }
  }

  /** The outcome of an operation that a page either carries out or refuses with a message. */
  datatype Result<+T, +E> = Ok(value: T) | Err(error: E)

  function Min(a: int, b: int): int { if a <= b then a else b }

  function Max(a: int, b: int): int { if a >= b then a else b }
}

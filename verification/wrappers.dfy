/** Option and the error-carrying result shared by every component. */
module Wrappers {

  datatype Option<+T> = None | Some(value: T) {
    function GetOr(default: T): T {
      match this
      case Some(v) => v
      case None => default
    }
  }

  /** The error kinds the engine distinguishes: a missing file or object, unparseable
      content, and a failed read or write. */
  datatype Failure = NotFound | Corrupt | Io

  datatype Result<+T> = Ok(value: T) | Err(error: Failure)
}

/** Failure-carrying result types shared by every module of the model. */
module Wrappers {

  datatype Option<+T> = None | Some(value: T) {
    function GetOr(default: T): T {
      match this
      case Some(v) => v
      case None => default
    }
  }

  /** A computation that either produced a value or raised an error. */
  datatype Result<+R, +E> = Ok(value: R) | Err(error: E)
}

/** Octets, as carried by Node's `Buffer` and produced by a UTF-8 encoder. */
module Bytes {
  newtype byte = b: int | 0 <= b < 256
}

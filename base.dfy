/** Small wrapper types shared by every module of the model. */
module Base {

  /** An optional value: `undefined` (or an absent property) is `None`. */
  datatype Option<+T> = None | Some(value: T) {
    function GetOr(default: T): T {
      match this
      case Some(v) => v
      case None => default
    }
  }

  /** The outcome of an operation that may throw: `Err` carries the message of the thrown error. */
  datatype Result<+T> = Ok(value: T) | Err(message: string)

  /** One element of a `Uint8Array`. */
  newtype byte = x: int | 0 <= x < 256
}

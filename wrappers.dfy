/** Option and Result values, used wherever the source returns `undefined` or throws. */
module Wrappers {

  datatype Option<+T> = None | Some(value: T) {
    function GetOr(default: T): T {
      match this
      case Some(v) => v
      case None => default
    }
  }

  /** `Err` stands for a thrown JavaScript Error; its payload is the message or a code. */
  datatype Result<+T, +E> = Ok(value: T) | Err(error: E)
}

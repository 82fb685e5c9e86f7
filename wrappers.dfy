/** Small failure-carrying datatypes shared by the rest of the model. */
module Wrappers {

  /** A value that may be missing: a JavaScript property that is `undefined`. */
  datatype Option<+T> = None | Some(value: T) {
    function GetOr(default: T): T {
      match this
      case Some(v) => v
      case None => default
    }
  }

  /** The completion of one remote call: the value handed to the callback,
      or the error whose text the callback receives. */
  datatype Reply<+T> = Ok(value: T) | Err(message: string)
}

/** Option and Result values for the nullable fields and the store's replies. */
module Wrappers {

  /** A value that may be absent: `null`/`undefined` in the source. */
  datatype Option<+T> = None | Some(value: T)
  {
    function GetOr(default: T): T
    {
      match this
      case Some(v) => v
      case None => default
    }
  }

  /** The outcome of a call into the store: the data it returned, or the error it reported or threw. */
  datatype Result<+T> = Ok(value: T) | Err(message: string)
}

/** Optional values and results shared by every module of the model. */
module Wrappers {

  /** A value that may be absent (Python `None`). */
  datatype Option<+T> = None | Some(value: T)
  {
    function GetOr(default: T): T
    {
      if Some? then value else default
    }
  }

  /** The outcome of an operation that can fail with a message. */
  datatype Result<+T> = Success(value: T) | Failure(error: string)
}

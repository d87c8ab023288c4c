/** Optional values and results with an error: how the model returns what
    the source signals with `None` or with an exception. */
module Wrappers {
  datatype Option<T> = None | Some(value: T)
  {
    /** The value, or d when there is none (a defaulted argument). */
    function GetOr(d: T): T
    {
      match this
      case Some(v) => v
      case None => d
    }
  }

  datatype Result<T, E> = Ok(value: T) | Err(error: E)
}

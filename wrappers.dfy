/** Optional values and error-or-value results, standing for Go's nil pointers and `(T, error)` pairs. */
module Wrappers {
  datatype Option<T> = None | Some(value: T)
  {
    function GetOr(default: T): T
    {
      match this
      case Some(v) => v
      case None => default
    }
  }

  datatype Result<T> = Ok(value: T) | Err(msg: string)

  /**
   * Where the source has a defect, which behaviour to model: the code as it
   * is written, or the evidently intended correction.
   */
  datatype Variant = AsWritten | Intended
}

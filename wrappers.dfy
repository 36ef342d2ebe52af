/** Optional values (a nullable Java reference) and the outcome of a service call
  * that either returns a value or throws an exception carrying a message. */
module Wrappers {

  datatype Option<T> = None | Some(value: T)
  {
    function UnwrapOr(default: T): T
    {
      match this
      case None => default
      case Some(v) => v
    }
  }

  /** `Err(msg)` stands for the exception the Java service throws, with its message. */
  datatype Result<T> = Ok(value: T) | Err(msg: string)
}

/** Failure-carrying wrappers shared by every module of the model.
    `Option` stands for JavaScript's `null`/`undefined` versus a value, and
    `Result` for a call that either returns or throws. */
module Common {

  datatype Option<+T> = None | Some(value: T)

  datatype Result<+T, +E> = Ok(value: T) | Err(error: E)

  /** The `||` default of JavaScript for an optional value. */
  function OrElse<T>(o: Option<T>, default: T): T
  {
    match o
    case Some(v) => v
    case None => default
  }
}

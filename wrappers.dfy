/** The two wrappers the model shares: an optional value (JavaScript's
    `undefined` beside a value) and the outcome of a step that may throw. */
module Wrappers {
  datatype Option<T> = None | Some(value: T)
  {
    /** `o ?? fallback` */
    function GetOr(fallback: T): T {
      if Some? then value else fallback
    }
  }

  /** `Failure` stands for an exception thrown (or a promise rejected) with
      the given message. */
  datatype Result<T> = Ok(value: T) | Failure(error: string)
}

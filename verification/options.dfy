/** Optional values and results shared by the relay's modules. */
module Options {

  /** A value that may be absent (TypeScript `T | undefined`). */
  datatype Option<+T> = None | Some(value: T)

  /** A settled promise: resolved with a value, or rejected with an error message. */
  datatype Result<+T> = Ok(value: T) | Err(message: string)
}

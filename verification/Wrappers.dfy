/** Values that may be absent or carry a store's error. */
module Wrappers {
  datatype Option<+T> = None | Some(value: T)

  /** The store errors handlers tell apart (errors.go); Other is any failure of the machine below. */
  datatype Error = NotFound | Conflict | UnexpectedEof | Other

  datatype Result<+T> = Ok(value: T) | Err(error: Error)
}

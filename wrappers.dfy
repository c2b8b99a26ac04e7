/** Small failure-carrying datatypes shared by every module of the model. */
module Wrappers {

  /** Go's nilable pointer fields (`*int64`, `*time.Time`) and "maybe" results. */
  datatype Option<+T> = None | Some(value: T)

  /** A Go `(value, error)` pair where the error is its message text. */
  datatype Result<+T> = Ok(value: T) | Err(msg: string)
}

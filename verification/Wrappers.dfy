/** Option and Result, used wherever the Go or Rust code returns a nil pointer or an error, and the
    ways a remote write can end. */
module Wrappers {
  datatype Option<+T> = None | Some(value: T)

  datatype Result<+T, +E> = Ok(value: T) | Err(error: E)

  /** A write is done, refused without effect, or done although it reports an error. */
  datatype Write = Done | Refused | DoneUnconfirmed
}

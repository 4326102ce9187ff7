/** The two carrier types shared by every module. */
module Options {

  /** A value that may be absent: a nil pointer, a NULL column, an unset parameter. */
  datatype Option<+T> = None | Some(value: T)

  /** A Go `(value, error)` pair of which exactly one half is meaningful. */
  datatype Result<+T, +E> = Ok(value: T) | Err(error: E)
}

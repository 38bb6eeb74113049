/** Result types shared by every module. */
module Common {

  datatype Option<+T> = None | Some(value: T)

  /** A Go `(value, error)` pair of which exactly one half is meaningful. */
  datatype Result<+T, +E> = Ok(value: T) | Err(error: E)

  /** Instants are nanoseconds since the epoch; Go's UTC normalisation does not move an instant. */
  type Instant = int
}

/** A value that may be absent: Go's nil pointers, zero times and (value, error) pairs. */
module Options {
  datatype Option<+T> = None | Some(value: T)
}

/** A value that may be absent: Go's nil pointers and "not found" results. */
module Options {
  datatype Option<+T> = None | Some(value: T)
}

/** A value that may be missing: Go's second result, nil pointers and NULL. */
module Options {
  datatype Option<+T> = None | Some(value: T)
}

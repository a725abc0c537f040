module Options {
  /** A value, or none: Go's nil pointers, missing map keys and "ok" results. */
  datatype Option<T> = None | Some(value: T)
}

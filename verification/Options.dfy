// A value that may be absent: null pointers and empty functions.
module Options {
  datatype Option<T> = None | Some(value: T)
}

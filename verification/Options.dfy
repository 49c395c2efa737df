// A value that may be missing: a byte that was not read, a process that was not
// there.
module Options {
  datatype Option<T> = None | Some(value: T)
}

// A value that may be absent.
module Options {

  datatype Option<T> = None | Some(value: T)
}

/** The optional value used wherever Python code returns or receives `None`. */
module Options {
  datatype Option<T> = None | Some(value: T)
}

/** A value or its absence: Python code that raises gives `None`. */
module Options {
  datatype Option<T> = None | Some(value: T)
}

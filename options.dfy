/** The optional value the image probe resolves with: a path, or `null`. */
module Options {
  datatype Option<T> = None | Some(value: T)
}

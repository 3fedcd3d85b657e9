/** A value or nothing: the null pointers of the programs. */
module Options {
  datatype Option<T> = None | Some(value: T)
}

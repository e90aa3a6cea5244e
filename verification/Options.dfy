/** A value that may be missing: what a lookup or an allocation gives. */
module Options {
  datatype Option<T> = None | Some(value: T)
}

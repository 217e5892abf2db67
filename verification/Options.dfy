/** A value that may be missing: C's NULL results. */
module Options {
  datatype Option<T> = None | Some(value: T)
}

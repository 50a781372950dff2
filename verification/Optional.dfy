/** A value that may be missing: null, undefined or an exception in the original. */
module Optional {
  datatype Option<+T> = None | Some(value: T)
}

/** A value that may be missing: Python's `None` for a `str` argument, or an absent JSON key. */
module Options {
  datatype Option<+T> = None | Some(value: T)
}

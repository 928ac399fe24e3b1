/** A value that may be missing: the source's `undefined`, `null` and empty query results. */
module Options {
  datatype Option<+T> = None | Some(value: T)
}

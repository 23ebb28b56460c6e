/** Optional values: the source's `None` returns. */
module Options {
  datatype Option<+T> = None | Some(value: T)
}

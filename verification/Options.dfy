/** Optional values: a nil reference or a missing map entry in the control plane. */
module Options {
  datatype Option<+T> = None | Some(value: T)
}

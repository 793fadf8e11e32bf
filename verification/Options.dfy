/** A value that may be missing: Go's `v, ok` results and nil pointers. */
module Options {
  datatype Option<+T> = None | Some(value: T)
}

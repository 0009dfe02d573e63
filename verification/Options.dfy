/** A value that may be missing: what the kernel's optional results come back as. */
module Options {
  datatype Option<T> = None | Some(value: T)
}

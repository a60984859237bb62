// Small helper types shared by the modules.

module Common {
  /** A value that may be absent, as a nullable return of the source. */
  datatype Option<T> = None | Some(value: T)
}

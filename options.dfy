/** Results that may be missing. */
module Options {
  /** A result that may be missing: None where the source would trap. */
  datatype Option<T> = None | Some(value: T)
}

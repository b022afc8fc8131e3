/** What several parts of the kernel's model share. */
module Common {
  /** A thread, or the process it belongs to. */
  type Tid = nat

  /** A pointer that may be NULL, or a result that may be missing. */
  datatype Option<T> = None | Some(value: T)
}

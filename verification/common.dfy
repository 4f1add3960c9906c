/** Shared helper types. */
module Common {

  /** A value that may be absent: a parse that failed, a filter that is not set,
      a row that is not selected. */
  datatype Option<+T> = None | Some(value: T)
}

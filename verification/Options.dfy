/** Python's `None` beside a value. */
module Options {
  datatype Option<+T> = Some(value: T) | None
}

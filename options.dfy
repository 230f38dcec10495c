/** Python's `None`-or-value, used for optional titles, parsed dates and dict lookups. */
module Options {
  datatype Option<+T> = None | Some(value: T)
}

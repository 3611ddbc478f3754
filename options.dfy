/** Python's `None`-or-value, and the truthiness test the script applies to strings. */
module Options {

  datatype Option<+T> = None | Some(value: T)

  /** `if x:` on a value that is `None` or a `str`: false for `None` and for the empty string. */
  predicate Truthy(s: Option<string>)
  {
    s.Some? && s.value != ""
  }
}

/** Optional values, results with an error branch, and Python's truthiness of optional values. */
module Base {

  /** A value that may be absent: `X | None` in the source. */
  datatype Option<+T> = None | Some(value: T)

  /** The outcome of an operation that either returns a value or raises an error. */
  datatype Result<+T, +E> = Ok(value: T) | Err(error: E)

  /** `if x:` on an `int | None`: both None and 0 are false. */
  predicate TruthyInt(x: Option<int>)
  {
    x.Some? && x.value != 0
  }

  /** `if s:` on a `str | None`: both None and the empty string are false. */
  predicate TruthyText(s: Option<string>)
  {
    s.Some? && s.value != ""
  }
}

/** An optional value, used where the console either changes a field or leaves it alone. */
module Optional {

  datatype Option<T> = None | Some(value: T)

  /** The value held by `o`, or `fallback` when it holds none. */
  function ValueOr<T>(o: Option<T>, fallback: T): (r: T)
    ensures o.Some? ==> r == o.value
    ensures o.None? ==> r == fallback
  {
    if o.Some? then o.value else fallback
  }
}

/** What several parts share: values that may be missing, and the choice a loop over a
    map makes. */
module Collections {
  datatype Option<+T> = None | Some(value: T)

  /** Some element of a set; a loop over a map may meet any next. */
  method Pick<T(==)>(s: set<T>) returns (x: T)
    requires s != {}
    ensures x in s
  {
    x :| x in s;
  }
}

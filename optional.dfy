/** The value-or-nothing type used for Python's `Optional[...]` fields and results. */
module Optional {

  datatype Option<+T> = None | Some(value: T)
}

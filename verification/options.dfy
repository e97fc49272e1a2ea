/** The Some/None datatype used for Python's `Optional[...]` fields and for
    operations that may produce no value. */
module Options {

  datatype Option<+T> = None | Some(value: T)
}

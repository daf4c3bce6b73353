/** The optional value used throughout for a pointer that may be null and for a lookup that may fail. */
module Options {

  datatype Option<+T> = None | Some(value: T)
}

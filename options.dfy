/** The optional value, used where the C code has a string that may be NULL. */
module Options {

  datatype Option<+T> = None | Some(value: T)
}

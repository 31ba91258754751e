/** Kotlin's nullable values (`T?`), as a Some/None datatype. */
module Option {

  datatype Option<+T> = None | Some(value: T)
}

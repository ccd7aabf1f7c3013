/** The optional value used for a seat's holder name (JavaScript `null` or a string). */
module Options {

  datatype Option<+T> = None | Some(value: T)
}

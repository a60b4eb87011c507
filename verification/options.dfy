/** The optional value used where the JavaScript code stores `null`. */
module Options {

  datatype Option<+T> = None | Some(value: T)
}

/** An optional value: the model's stand-in for a JavaScript value that may be `undefined`. */
module Optional {

  datatype Option<+T> = None | Some(value: T)
}

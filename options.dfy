/** An optional value: a property the host may or may not have stored. */
module Options {

  datatype Option<+T> = None | Some(value: T)

}

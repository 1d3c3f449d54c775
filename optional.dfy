/** The outcome of a call that may stop with an error before doing anything. */
module Optional {

  datatype Option<+T> = None | Some(value: T)
}

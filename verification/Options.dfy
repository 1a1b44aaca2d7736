/** The optional value used throughout the model for Go's nil-able results. */
module Options {
  datatype Option<+T> = None | Some(value: T)
}

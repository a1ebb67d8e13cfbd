// The one general-purpose datatype the model needs.
module Options {
  datatype Option<+T> = None | Some(value: T)
}

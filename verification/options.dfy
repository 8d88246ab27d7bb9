/** The `None`-or-value results that the exporters return. */
module Options {

  datatype Option<+T> = None | Some(value: T)
}

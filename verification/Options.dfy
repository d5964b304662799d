/** An optional value: what the plugin code writes as a value or `None`. */
module Options {
  datatype Option<+T> = None | Some(value: T)
}

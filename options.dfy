/** An optional value, for results the source represents by `nil`. */
module Options {
  datatype Option<+T> = None | Some(value: T)
}

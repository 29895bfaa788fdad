/** An optional value, for results the source reports as `null`. */
module Options {
  datatype Option<T> = None | Some(value: T)
}

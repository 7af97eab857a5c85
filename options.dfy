/** An optional value: a JSON field that may be absent, or Python's `None`. */
module Options {

  datatype Option<+T> = None | Some(value: T)

}

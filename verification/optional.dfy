/** The value-or-nothing wrapper that stands for JavaScript's `null`. */
module Optional {

  datatype Option<+T> = None | Some(value: T)
}

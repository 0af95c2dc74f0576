/** A value that may be absent: PHP's `null` where the source tests a parameter with is_null or returns `false`. */
module Options {

  datatype Option<+T> = None | Some(value: T)

}

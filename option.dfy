/** A value that may be absent: JavaScript's `null` / `undefined`. */
module Options {

  datatype Option<T> = None | Some(value: T)

}

/** An optional value: the outcome of an operation that may fail, or an argument that may be omitted. */
module Optional {

  datatype Option<+T> = None | Some(value: T)
}

/** The optional value used where the source leaves a result unset or a pointer null. */
module Optional {
  datatype Option<T> = None | Some(value: T)
}

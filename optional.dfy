/** The optional-value datatype shared by every module. */
module Optional {
  datatype Option<T> = None | Some(value: T)
}

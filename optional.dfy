/** The optional values of the source: a nullable string, an absent JSON field. */
module Optional {
  datatype Option<+T> = None | Some(value: T)
}

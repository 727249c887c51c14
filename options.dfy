/** The optional value used where the Java code has a nullable reference. */
module Options {

  datatype Option<+T> = None | Some(value: T)
}

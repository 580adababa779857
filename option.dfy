/** The optional value returned where the source returns null. */
module Options {

  datatype Option<T> = None | Some(value: T)
}

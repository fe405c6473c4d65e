/** A value or none: an owner of a lock, a thread picked from a list. */
module Options {

  datatype Option<T> = None | Some(value: T)
}

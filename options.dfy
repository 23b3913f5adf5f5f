/** The optional value used for "no match" and "no such key". */
module Options {

  datatype Option<T> = None | Some(value: T)
}

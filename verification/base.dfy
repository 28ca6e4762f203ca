/** Small shared datatypes: an optional value, used for nullable handles and addresses. */
module Base {

  /** A value that may be absent: a null Avahi handle, or an address not yet resolved. */
  datatype Option<+T> = None | Some(value: T)
}

/** The presence-or-absence result the store's `get` and `remove` return. */
module Optional {

  datatype Option<+T> = None | Some(value: T)
}

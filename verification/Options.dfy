/** A value that may be absent: a NULL, a failed call, a reply that did not come. */
module Options {
  datatype Option<+T> = None | Some(value: T)
}

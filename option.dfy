/** The optional result of the arc-length inversions. */
module Options {

  datatype Option<+T> = None | Some(value: T)
}

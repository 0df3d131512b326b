/** A nullable value: a database column that may hold SQL NULL, or a lookup that may find nothing. */
module Options {

  datatype Option<+T> = None | Some(value: T)
}

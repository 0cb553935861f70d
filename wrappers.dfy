/** Nullable values: a Java reference or a SQL column that may be null. */
module Wrappers {
  datatype Option<+T> = None | Some(value: T)
}

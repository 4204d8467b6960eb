/** A value that may be missing: a cell that pandas reads as NaN, or a column the table does not have yet. */
module Wrappers {

  datatype Option<+T> = None | Some(value: T)

}

/** Datatypes shared by the components. */
module Prelude {
  datatype Option<+T> = None | Some(value: T)
}

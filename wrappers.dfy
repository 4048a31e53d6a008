/** The optional value used for the script's nullable fields (`null` becomes `None`). */
module Wrappers {
  datatype Option<+T> = None | Some(value: T)
}

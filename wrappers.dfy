/** The optional value used for the component's nullable state (`null` in the source). */
module Wrappers {

  datatype Option<+T> = None | Some(value: T)
}

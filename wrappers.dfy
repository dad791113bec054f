/** Option type standing in for Go's nil pointers (`*Position`, `*Piece`);
    `Nil` is the nil pointer. */
module Wrappers {
  datatype Option<+T> = Nil | Some(value: T)
}

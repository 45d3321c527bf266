/** Shared small types: a value that may not be there, and a byte. */
module Wrappers {
  datatype Option<+T> = None | Some(value: T)

  type Byte = x: nat | x < 256
}

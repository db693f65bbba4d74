/** Types shared by the modules of the model. */
module Wrappers {
  datatype Option<+T> = None | Some(value: T)

  /** The C++ type unsigned char. */
  type Byte = b: int | 0 <= b < 256
}

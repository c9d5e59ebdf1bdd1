/** The byte type shared by the protocol modules. */
module Bytes {
  type Byte = x: int | 0 <= x < 256
}

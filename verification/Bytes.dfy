/** What a char of the files, the device tree and the disk holds. */
module Bytes {
  type Byte = x: int | 0 <= x < 256
}

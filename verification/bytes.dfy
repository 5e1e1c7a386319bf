/** Octets, as Go's `byte`, shared by the codec, the filesystem and the SSH models. */
module Bytes {
  type byte = x: int | 0 <= x < 256
}

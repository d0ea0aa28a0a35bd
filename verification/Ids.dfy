/** What identifies a peer, to the transport and to everything above it. */
module Ids {
  /** A 16-bit number. */
  type PeerId = x: int | 0 <= x < 65536

  /** A socket address, compared only for equality. */
  type Address = string
}

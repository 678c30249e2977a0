/** Bytes as numbers. */
module Bytes {
  lemma ThroughByte(n: int)
    requires 0 <= n < 256
    ensures (n as bv8) as int == n
  {}
}

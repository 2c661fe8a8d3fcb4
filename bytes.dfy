/** Octets, as held by a `Uint8Array`. */
module Bytes {

  type Byte = b: int | 0 <= b < 256

  /** A run of zero bytes: what a fresh `Uint8Array` holds. */
  function Zeros(n: nat): (r: seq<Byte>)
    ensures |r| == n
    ensures forall i :: 0 <= i < n ==> r[i] == 0
  {
    seq(n, _ => 0)
  }
}

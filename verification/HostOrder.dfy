/** The byte swaps of Host.h, on a machine that stores the low byte first. */
module HostOrder {

  function Htons(s: bv16): bv16 { (s >> 8) | (s << 8) }

  function Htonl(w: bv32): bv32 {
    (w >> 24) | (((w << 8) >> 24) << 8) | (((w >> 8) << 24) >> 8) | (w << 24)
  }

  /** The bytes of a value in the order of their addresses. */
  function Memory16(s: bv16): (bv16, bv16) { (s & 0xFF, s >> 8) }

  function Memory32(w: bv32): (bv32, bv32, bv32, bv32) { (w & 0xFF, (w >> 8) & 0xFF, (w >> 16) & 0xFF, w >> 24) }

  /** What a reader makes of bytes that come high byte first. */
  function HighFirst16(m: (bv16, bv16)): bv16 { (m.0 << 8) | m.1 }

  function HighFirst32(m: (bv32, bv32, bv32, bv32)): bv32 { (m.0 << 24) | (m.1 << 16) | (m.2 << 8) | m.3 }

  /** Swapping twice is the identity, and a swapped value lies in memory in network order. */
  lemma SwapIsNetworkOrder(s: bv16, w: bv32)
    ensures Htons(Htons(s)) == s && Htonl(Htonl(w)) == w
    ensures HighFirst16(Memory16(Htons(s))) == s && HighFirst32(Memory32(Htonl(w))) == w
  {
  }
}

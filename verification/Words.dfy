/** Bytes, addresses, network-order words and the wrap-around arithmetic of the AVR's
    unsigned types. */
module Words {

  type byte = x: int | 0 <= x < 256
  type word = x: int | 0 <= x < 0x1_0000

  type Mac = s: seq<byte> | |s| == 6 witness [0, 0, 0, 0, 0, 0]
  type Ip = s: seq<byte> | |s| == 4 witness [0, 0, 0, 0]

  datatype Option<+T> = None | Some(value: T)

  const MOD16 := 0x1_0000
  const MOD32 := 0x1_0000_0000

  function Add16(x: nat, y: nat): nat { (x + y) % MOD16 }

  function Add32(x: nat, y: nat): (r: nat)
    ensures r < MOD32
  {
    (x + y) % MOD32
  }

  function Sub32(x: nat, y: nat): (r: nat)
    ensures r < MOD32
  {
    (x - y) % MOD32
  }

  /** The 16-bit word at i, high byte first; a last odd byte counts as the high half. */
  function Word(data: seq<byte>, i: nat): (w: nat)
    requires i < |data|
    ensures w < MOD16
  {
    256 * (data[i] as int) + if i + 1 < |data| then data[i + 1] as int else 0
  }

  /** The 32-bit value at i. */
  function Quad(data: seq<byte>, i: nat): (x: nat)
    requires i + 3 < |data|
    ensures x < MOD32
  {
    MOD16 * Word(data, i) + Word(data, i + 2)
  }

  /** A word in network order. */
  function Net16(w: nat): (s: seq<byte>)
    requires w < MOD16
    ensures |s| == 2
  {
    [w / 256, w % 256]
  }

  function Net32(x: nat): (s: seq<byte>)
    requires x < MOD32
    ensures |s| == 4
  {
    Net16(x / MOD16) + Net16(x % MOD16)
  }

  /** The high byte comes first. */
  lemma NetworkOrder()
    ensures Net16(0x1234) == [0x12, 0x34] && Net32(0x1234_5678) == [0x12, 0x34, 0x56, 0x78]
    ensures Word([0x12, 0x34], 0) == 0x1234 && Word([0x12], 0) == 0x1200
    ensures Quad([0x12, 0x34, 0x56, 0x78], 0) == 0x1234_5678
  {
  }
}

/** Fixed-width integers and the network byte order used by every message. */
module Bytes {

  type byte = n: int | 0 <= n < 0x100

  type u16 = n: int | 0 <= n < 0x1_0000

  type u32 = n: int | 0 <= n < 0x1_0000_0000

  /** C's `int`. Arithmetic on a variable of this type is proved not to overflow. */
  type i32 = n: int | -0x8000_0000 <= n < 0x8000_0000

  /** The eight bits of a byte, by counting up: the conversion to `bv8` itself is slow to prove with. */
  function AsBits(b: byte): (r: bv8)
    ensures r as int == b
    decreases b
  {
    if b == 0 then 0 else NextBits(AsBits(b - 1))
  }

  function NextBits(x: bv8): (r: bv8)
    requires x as int < 255
    ensures r as int == x as int + 1
  {
    x + 1
  }

  lemma BitsAreUnique(x: bv8, y: bv8)
    requires x as int == y as int
    ensures x == y
  {
  }

  const UINT32_MAX: u32 := 0xFFFF_FFFF

  type Octets = seq<byte>

  /** `n++` on a `uint32_t`. */
  function Increment(n: u32): u32 {
    if n == UINT32_MAX then 0 else n + 1
  }

  /** A number as a `uint32_t` holds it: modulo 2^32. */
  function ToU32(n: nat): (r: u32)
    ensures r == n % 0x1_0000_0000
  {
    if n <= UINT32_MAX then n else n % 0x1_0000_0000
  }

  datatype Option<+T> = None | Some(value: T)

  /** `htonl` followed by a four-byte `memcpy`. */
  function Be32(n: u32): (b: Octets)
    ensures |b| == 4
  {
    [n / 0x100_0000, n / 0x1_0000 % 0x100, n / 0x100 % 0x100, n % 0x100]
  }

  /** A four-byte `memcpy` followed by `ntohl`. */
  function FromBe32(b: Octets): u32
    requires |b| >= 4
  {
    var b0: int, b1: int, b2: int := b[0], b[1], b[2];
    0x100_0000 * b0 + 0x1_0000 * b1 + 0x100 * b2 + b[3]
  }

  /** Counting up `k` times from `n` gives the number modulo 2^32. */
  lemma IncrementWraps(n: u32, k: nat)
    requires n == ToU32(k)
    ensures Increment(n) == ToU32(k + 1)
  {
    assert (k + 1) % 0x1_0000_0000 == if k % 0x1_0000_0000 == UINT32_MAX then 0 else k % 0x1_0000_0000 + 1;
  }

  /** The first byte is the most significant one. */
  lemma Be32IsBigEndian(n: u32)
    ensures var b := Be32(n);
            var b0: int, b1: int, b2: int := b[0], b[1], b[2];
            n == ((b0 * 256 + b1) * 256 + b2) * 256 + b[3]
  {
    var high, middle := n / 0x1_0000, n / 0x100;
    assert middle == 0x100 * high + middle % 0x100;
    assert high == 0x100 * (n / 0x100_0000) + high % 0x100;
  }

  lemma Be32RoundTrip(n: u32)
    ensures FromBe32(Be32(n)) == n
  {
    var high, middle := n / 0x1_0000, n / 0x100;
    assert middle == 0x100 * high + middle % 0x100;
    assert high == 0x100 * (n / 0x100_0000) + high % 0x100;
  }

  lemma Be32Onto(b: Octets)
    requires |b| == 4
    ensures Be32(FromBe32(b)) == b
  {
    var b0: int, b1: int, b2: int := b[0], b[1], b[2];
    var n := FromBe32(b);
    assert n / 0x100 == 0x1_0000 * b0 + 0x100 * b1 + b2;
    assert n / 0x1_0000 == 0x100 * b0 + b1;
    assert n / 0x100_0000 == b0;
  }
}

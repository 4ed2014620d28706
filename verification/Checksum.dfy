/** The Internet checksum of libcpe464/checksum.c (RFC 1071). */
module Checksum {
  import opened Bytes

  /** The host's byte order: it decides how two bytes in memory make a 16-bit word. */
  datatype Endian = Little | Big

  /** The word that a host reads from two adjacent bytes. */
  function Word(e: Endian, first: byte, second: byte): u16 {
    match e
    case Little => first + 0x100 * second
    case Big => 0x100 * first + second
  }

  /** The two bytes that a host stores for a word. */
  function WordBytes(e: Endian, w: u16): (b: Octets)
    ensures |b| == 2 && Word(e, b[0], b[1]) == w
  {
    match e
    case Little => [w % 0x100, w / 0x100]
    case Big => [w / 0x100, w % 0x100]
  }

  /** The plain sum of the words of `p` from offset `i` on; an odd last byte is followed by a
      zero byte. */
  function SumFrom(e: Endian, p: Octets, i: nat): nat
    decreases |p| - i
  {
    if i >= |p| then 0
    else if i + 1 == |p| then Word(e, p[i], 0)
    else Word(e, p[i], p[i + 1]) + SumFrom(e, p, i + 2)
  }

  function Sum(e: Endian, p: Octets): nat {
    SumFrom(e, p, 0)
  }

  /** One's complement addition of 16-bit words: the carry out of bit 15 is added back at bit 0. */
  function EndAroundAdd(a: u16, b: u16): u16 {
    if a + b > 0xFFFF then a + b - 0xFFFF else a + b
  }

  /** The one's complement sum of RFC 1071 section 1, added word by word. */
  function OnesComplementFrom(e: Endian, p: Octets, i: nat): u16
    decreases |p| - i
  {
    if i >= |p| then 0
    else if i + 1 == |p| then Word(e, p[i], 0)
    else EndAroundAdd(Word(e, p[i], p[i + 1]), OnesComplementFrom(e, p, i + 2))
  }

  function OnesComplementSum(e: Endian, p: Octets): u16 {
    OnesComplementFrom(e, p, 0)
  }

  /** The checksum as RFC 1071 defines it: the complement of the one's complement sum. */
  function Cksum(e: Endian, p: Octets): u16 {
    0xFFFF - OnesComplementSum(e, p)
  }

  /** `validateChecksum`, createPDU.c. */
  predicate ChecksumOk(e: Endian, p: Octets) {
    Cksum(e, p) == 0
  }

  /** The representative of `s` modulo 65535 in 1..65535; only a zero sum gives 0. */
  function Residue(s: nat): u16 {
    if s == 0 then 0 else (s - 1) % 0xFFFF + 1
  }

  lemma OnesComplementSumIsResidue(e: Endian, p: Octets)
    ensures OnesComplementSum(e, p) == Residue(Sum(e, p))
  {
    OnesComplementFromIsResidue(e, p, 0);
  }

  lemma {:induction false} OnesComplementFromIsResidue(e: Endian, p: Octets, i: nat)
    ensures OnesComplementFrom(e, p, i) == Residue(SumFrom(e, p, i))
    decreases |p| - i
  {
    if i + 1 < |p| {
      OnesComplementFromIsResidue(e, p, i + 2);
      ResidueAdd(Word(e, p[i], p[i + 1]), SumFrom(e, p, i + 2));
    }
  }

  lemma ResidueAdd(w: u16, s: nat)
    ensures Residue(w + s) == EndAroundAdd(w, Residue(s))
  {
    if s > 0 {
      var q := (s - 1) / 0xFFFF;
      assert s - 1 == 0xFFFF * q + (s - 1) % 0xFFFF;
    }
  }

  lemma {:induction false} SumBound(e: Endian, p: Octets, i: nat)
    requires i <= |p|
    ensures 2 * SumFrom(e, p, i) <= 0xFFFF * (|p| - i + 1)
    ensures (|p| - i) % 2 == 0 ==> 2 * SumFrom(e, p, i) <= 0xFFFF * (|p| - i)
    decreases |p| - i
  {
    if i + 2 <= |p| {
      SumBound(e, p, i + 2);
    }
  }

  /** `in_cksum`: the accumulator is a C `int`, and two carry folds give the checksum of
      RFC 1071 for every length up to 65536. */
  method InCksum(e: Endian, addr: array<byte>, len: i32) returns (answer: u16)
    requires 0 <= len <= addr.Length && len <= 0x1_0000
    ensures answer == Cksum(e, addr[..len])
  {
    var sum: i32 := 0;
    var w: i32, nleft: i32 := 0, len;
    ghost var p := addr[..len];
    SumBound(e, p, 0);
    while nleft > 1
      invariant 0 <= nleft && w + nleft == len && 0 <= w
      invariant sum >= 0 && sum + SumFrom(e, p, w) == Sum(e, p)
    {
      sum := sum + Word(e, addr[w], addr[w + 1]);
      w, nleft := w + 2, nleft - 2;
    }
    if nleft == 1 {
      sum := sum + Word(e, addr[w], 0);
    }
    assert sum == Sum(e, p);
    OnesComplementSumIsResidue(e, p);
    TwoFoldsSuffice(sum);
    sum := sum / 0x1_0000 + sum % 0x1_0000;
    sum := sum + sum / 0x1_0000;
    answer := 0xFFFF - sum % 0x1_0000;
  }

  lemma TwoFoldsSuffice(s: i32)
    requires s >= 0
    ensures var once := s / 0x1_0000 + s % 0x1_0000;
            (once + once / 0x1_0000) % 0x1_0000 == Residue(s)
  {
    var q, r := s / 0x1_0000, s % 0x1_0000;
    assert s == 0xFFFF * q + (q + r);
  }

  lemma ChecksumOkIff(e: Endian, p: Octets)
    ensures ChecksumOk(e, p) <==> Sum(e, p) > 0 && Sum(e, p) % 0xFFFF == 0
  {
    OnesComplementSumIsResidue(e, p);
  }

  // ---------------------------------------------------------------- one changed byte

  /** What the value `v` at byte offset `i` contributes to the sum of words. */
  function Weighted(e: Endian, i: nat, v: int): int {
    if (i % 2 == 0) == e.Little? then v else 0x100 * v
  }

  lemma SumAfterByteChange(e: Endian, p: Octets, i: nat, b: byte)
    requires i < |p|
    ensures Sum(e, p[i := b]) == Sum(e, p) + Weighted(e, i, b - p[i])
  {
    SumFromAfterByteChange(e, p, i, b, 0);
  }

  /** A byte at `i` matters to the sum from `j` on exactly if it is not before `j`. */
  lemma {:induction false} SumFromAfterByteChange(e: Endian, p: Octets, i: nat, b: byte, j: nat)
    requires i < |p| && j % 2 == 0
    ensures SumFrom(e, p[i := b], j) == SumFrom(e, p, j) + if i < j then 0 else Weighted(e, i, b - p[i])
    decreases |p| - j
  {
    if j + 1 < |p| {
      SumFromAfterByteChange(e, p, i, b, j + 2);
    }
  }

  /** No change of a single byte survives validation, wherever the byte is. */
  lemma ByteChangeDetected(e: Endian, p: Octets, i: nat, b: byte)
    requires i < |p| && b != p[i]
    requires ChecksumOk(e, p)
    ensures !ChecksumOk(e, p[i := b])
  {
    SumAfterByteChange(e, p, i, b);
    ChecksumOkIff(e, p);
    ChecksumOkIff(e, p[i := b]);
    NotBothMultiples(Sum(e, p), Weighted(e, i, b - p[i]));
  }

  lemma NotBothMultiples(s: nat, delta: int)
    requires s % 0xFFFF == 0 && delta != 0 && -0xFFFF < delta < 0xFFFF && s + delta >= 0
    ensures (s + delta) % 0xFFFF != 0
  {
  }

  // ---------------------------------------------------------------- byte order

  function SecondBytes(p: Octets, i: nat): nat
    decreases |p| - i
  {
    if i + 1 >= |p| then 0 else p[i + 1] + SecondBytes(p, i + 2)
  }

  lemma {:induction false} SumsDifferByRotation(p: Octets, i: nat)
    ensures 0x100 * SumFrom(Little, p, i) == SumFrom(Big, p, i) + 0xFFFF * SecondBytes(p, i)
    ensures SumFrom(Little, p, i) == 0 <==> SumFrom(Big, p, i) == 0
    decreases |p| - i
  {
    if i + 1 < |p| {
      SumsDifferByRotation(p, i + 2);
    }
  }

  /** RFC 1071 section 2(B): both byte orders put the same two checksum bytes in memory. */
  lemma ByteOrderIndependent(p: Octets)
    ensures WordBytes(Little, Cksum(Little, p)) == WordBytes(Big, Cksum(Big, p))
    ensures ChecksumOk(Little, p) <==> ChecksumOk(Big, p)
  {
    SumsDifferByRotation(p, 0);
    OnesComplementSumIsResidue(Little, p);
    OnesComplementSumIsResidue(Big, p);
    RotatedResidue(Sum(Little, p), Sum(Big, p), SecondBytes(p, 0));
    RotatedComplement(OnesComplementSum(Little, p), OnesComplementSum(Big, p));
  }

  lemma RotatedComplement(little: u16, big: u16)
    requires big == little % 0x100 * 0x100 + little / 0x100
    ensures WordBytes(Little, 0xFFFF - little) == WordBytes(Big, 0xFFFF - big)
    ensures little == 0xFFFF <==> big == 0xFFFF
  {
    var lo, hi := little % 0x100, little / 0x100;
    HighAndLow(0xFFFF - little, 0xFF - hi, 0xFF - lo);
    HighAndLow(0xFFFF - big, 0xFF - lo, 0xFF - hi);
  }

  lemma HighAndLow(w: u16, hi: byte, lo: byte)
    requires w == 0x100 * hi as int + lo
    ensures w / 0x100 == hi && w % 0x100 == lo
  {
  }

  lemma RotatedResidue(little: nat, big: nat, k: nat)
    requires 0x100 * little == big + 0xFFFF * k
    requires little == 0 <==> big == 0
    ensures Residue(big) == Residue(little) % 0x100 * 0x100 + Residue(little) / 0x100
  {
    if little > 0 {
      var r := Residue(little);
      var q := (little - 1) / 0xFFFF;
      assert little == 0xFFFF * q + r;
      var lo, hi := r % 0x100, r / 0x100;
      var rotated := 0x100 * lo + hi;
      ResidueUnique(big, 0x100 * q + hi - k, rotated);
    }
  }

  lemma ResidueUnique(s: nat, m: int, r: u16)
    requires s == 0xFFFF * m + r && s > 0 && r > 0
    ensures Residue(s) == r
  {
  }
}

/** The PDU codec of createPDU.c and the message layouts that rcopy and the server put in it. */
module Pdu {
  import opened Bytes
  import opened Checksum

  const HEADER_LEN := 7
  const MAX_DATA_SIZE := 1400
  const MAX_PDU_SIZE := 1407
  const MAX_NAME_LEN := 100

  const FLAG_DATA: byte := 3
  const FLAG_RR: byte := 5
  const FLAG_SREJ: byte := 6
  const FLAG_FILENAME: byte := 7
  const FLAG_FILENAME_RESPONSE: byte := 8
  const FLAG_EOF: byte := 32
  const FLAG_EOF_ACK: byte := 33
  const FLAG_FINAL_ACK: byte := 34

  /** A PDU whose checksum field is still zero. */
  function Unsummed(seqNum: u32, flag: byte, payload: Octets): Octets {
    Be32(seqNum) + [0, 0, flag] + payload
  }

  function EncodePdu(e: Endian, seqNum: u32, flag: byte, payload: Octets): (p: Octets)
    ensures |p| == HEADER_LEN + |payload|
  {
    Be32(seqNum) + WordBytes(e, Cksum(e, Unsummed(seqNum, flag, payload))) + [flag] + payload
  }

  /** `createPDU`. */
  method CreatePdu(e: Endian, pduBuffer: array<byte>, seqNum: u32, flag: byte, payload: Octets) returns (pduLen: i32)
    requires |payload| <= MAX_DATA_SIZE ==> HEADER_LEN + |payload| <= pduBuffer.Length
    modifies pduBuffer
    ensures |payload| > 1400 ==> pduLen == -1 && pduBuffer[..] == old(pduBuffer[..])
    ensures |payload| <= 1400 ==>
              && pduLen == HEADER_LEN + |payload|
              && pduBuffer[..pduLen] == EncodePdu(e, seqNum, flag, payload)
              && forall j :: pduLen <= j < pduBuffer.Length ==> pduBuffer[j] == old(pduBuffer[j])
  {
    if |payload| > MAX_DATA_SIZE {
      return -1;
    }
    var s := Be32(seqNum);
    pduBuffer[0], pduBuffer[1], pduBuffer[2], pduBuffer[3] := s[0], s[1], s[2], s[3];
    pduBuffer[4] := 0;
    pduBuffer[5] := 0;
    pduBuffer[6] := flag;
    forall i | 0 <= i < |payload| {
      pduBuffer[7 + i] := payload[i];
    }
    pduLen := 7 + |payload|;
    assert pduBuffer[..pduLen] == Unsummed(seqNum, flag, payload);
    var checksum := InCksum(e, pduBuffer, pduLen);
    var c := WordBytes(e, checksum);
    pduBuffer[4], pduBuffer[5] := c[0], c[1];
    assert pduBuffer[..pduLen] == EncodePdu(e, seqNum, flag, payload);
  }

  /** Writing a word into the zeroed checksum field adds that word to the sum. */
  lemma SumWithChecksum(e: Endian, u: Octets, first: byte, second: byte)
    requires |u| >= HEADER_LEN && u[4] == 0 && u[5] == 0
    ensures Sum(e, u[..4] + [first, second] + u[6..]) == Sum(e, u) + Word(e, first, second)
  {
    var v: Octets := u[4 := first];
    SumAfterByteChange(e, u, 4, first);
    SumAfterByteChange(e, v, 5, second);
    assert v[5 := second] == u[..4] + [first, second] + u[6..];
  }

  /** Whatever createPDU builds passes `validateChecksum`. */
  lemma EncodedIsValid(e: Endian, seqNum: u32, flag: byte, payload: Octets)
    ensures ChecksumOk(e, EncodePdu(e, seqNum, flag, payload))
  {
    var u := Unsummed(seqNum, flag, payload);
    var c := WordBytes(e, Cksum(e, u));
    SumWithChecksum(e, u, c[0], c[1]);
    assert EncodePdu(e, seqNum, flag, payload) == u[..4] + [c[0], c[1]] + u[6..];
    OnesComplementSumIsResidue(e, u);
    ComplementCompletes(Sum(e, u));
    ChecksumOkIff(e, EncodePdu(e, seqNum, flag, payload));
  }

  lemma ComplementCompletes(s: nat)
    ensures s + (0xFFFF - Residue(s)) > 0
    ensures (s + (0xFFFF - Residue(s))) % 0xFFFF == 0
  {
    if s > 0 {
      var q := (s - 1) / 0xFFFF;
      assert s + (0xFFFF - Residue(s)) == 0xFFFF * (q + 1);
    }
  }

  /** Hosts of either byte order build and accept the same PDUs. */
  lemma SameOnEveryHost(seqNum: u32, flag: byte, payload: Octets, p: Octets)
    ensures EncodePdu(Big, seqNum, flag, payload) == EncodePdu(Little, seqNum, flag, payload)
    ensures ChecksumOk(Big, p) <==> ChecksumOk(Little, p)
  {
    ByteOrderIndependent(Unsummed(seqNum, flag, payload));
    ByteOrderIndependent(p);
  }

  // ---------------------------------------------------------------- getters

  /** `getSequenceNum`. */
  function SequenceNum(p: Octets): u32
    requires |p| >= 4
  {
    FromBe32(p)
  }

  /** `getFlag`. */
  function Flag(p: Octets): byte
    requires |p| >= HEADER_LEN
  {
    p[6]
  }

  /** The bytes after the header: `getPayloadLen` of them. */
  function Payload(p: Octets): (d: Octets)
    requires |p| >= HEADER_LEN
    ensures |d| == |p| - HEADER_LEN
  {
    p[HEADER_LEN..]
  }

  lemma PduRoundTrip(e: Endian, seqNum: u32, flag: byte, payload: Octets)
    ensures var p := EncodePdu(e, seqNum, flag, payload);
            SequenceNum(p) == seqNum && Flag(p) == flag && Payload(p) == payload
  {
    var p := EncodePdu(e, seqNum, flag, payload);
    assert p[0] == Be32(seqNum)[0] && p[1] == Be32(seqNum)[1] && p[2] == Be32(seqNum)[2] && p[3] == Be32(seqNum)[3];
    Be32RoundTrip(seqNum);
  }

  /** Where everything is: the number in bytes 0 to 3, the most significant first, the checksum in
      4 and 5, the flag in 6, the payload from 7 on. */
  lemma Layout(e: Endian, seqNum: u32, flag: byte, payload: Octets)
    ensures var p := EncodePdu(e, seqNum, flag, payload);
            && |p| == 7 + |payload| && p[6] == flag && p[7..] == payload
            && var b0: int, b1: int, b2: int := p[0], p[1], p[2];
               seqNum == ((b0 * 256 + b1) * 256 + b2) * 256 + p[3]
    ensures var p := EncodePdu(e, seqNum, flag, payload);
            Word(e, p[4], p[5]) == 0xFFFF - OnesComplementSum(e, p[..4] + [0, 0] + p[6..])
  {
    var p := EncodePdu(e, seqNum, flag, payload);
    Be32IsBigEndian(seqNum);
    assert p[0] == Be32(seqNum)[0] && p[1] == Be32(seqNum)[1] && p[2] == Be32(seqNum)[2] && p[3] == Be32(seqNum)[3];
    assert p[..4] + [0, 0] + p[6..] == Unsummed(seqNum, flag, payload);
  }

  /** A valid PDU is determined by its sequence number, flag and payload, up to the two
      representations of zero that one's complement allows in the checksum field. */
  lemma ValidIsEncoded(e: Endian, p: Octets)
    requires |p| >= HEADER_LEN && ChecksumOk(e, p)
    requires Word(e, p[4], p[5]) != 0 && Word(e, p[4], p[5]) != 0xFFFF
    ensures p == EncodePdu(e, SequenceNum(p), Flag(p), Payload(p))
  {
    var u := Unsummed(SequenceNum(p), Flag(p), Payload(p));
    var w := Word(e, p[4], p[5]);
    Be32Onto(p[..4]);
    SumWithChecksum(e, u, p[4], p[5]);
    assert p == u[..4] + [p[4], p[5]] + u[6..];
    ChecksumOkIff(e, p);
    OnesComplementSumIsResidue(e, u);
    OnlyOneComplement(Sum(e, u), w);
    WordBytesOfWord(e, p[4], p[5]);
  }

  lemma WordBytesOfWord(e: Endian, first: byte, second: byte)
    ensures WordBytes(e, Word(e, first, second)) == [first, second]
  {
  }

  lemma OnlyOneComplement(s: nat, w: u16)
    requires 0 < w < 0xFFFF && (s + w) % 0xFFFF == 0
    ensures w == 0xFFFF - Residue(s)
  {
  }

  // ---------------------------------------------------------------- control messages

  /** `sendControl`, buffer.c: an RR or SREJ carries its number as the payload. */
  function ControlPdu(ackSeqNum: u32, flag: byte, number: u32): Octets {
    EncodePdu(Little, ackSeqNum, flag, Be32(number))
  }

  /** `getControlSeqNum`, rcopy.c. */
  function ControlNumber(p: Octets): u32
    requires |p| >= HEADER_LEN + 4
  {
    FromBe32(p[HEADER_LEN..])
  }

  lemma ControlRoundTrip(ackSeqNum: u32, flag: byte, number: u32)
    ensures var p := ControlPdu(ackSeqNum, flag, number);
            && |p| == HEADER_LEN + 4 && ChecksumOk(Little, p)
            && Flag(p) == flag && ControlNumber(p) == number
  {
    PduRoundTrip(Little, ackSeqNum, flag, Be32(number));
    EncodedIsValid(Little, ackSeqNum, flag, Be32(number));
    Be32RoundTrip(number);
  }

  /** An RR or SREJ has its number in bytes 7 to 10, the most significant first. */
  lemma ControlLayout(ackSeqNum: u32, flag: byte, number: u32)
    ensures var p := ControlPdu(ackSeqNum, flag, number);
            && |p| == 11 && p[6] == flag
            && var b0: int, b1: int, b2: int := p[7], p[8], p[9];
               number == ((b0 * 256 + b1) * 256 + b2) * 256 + p[10]
  {
    Layout(Little, ackSeqNum, flag, Be32(number));
    Be32IsBigEndian(number);
    var p := ControlPdu(ackSeqNum, flag, number);
    assert p[7..][0] == p[7] && p[7..][1] == p[8] && p[7..][2] == p[9] && p[7..][3] == p[10];
  }

  // ---------------------------------------------------------------- the filename message

  datatype FilenameInfo = FilenameInfo(windowSize: i32, bufferSize: i32, toFile: Octets)

  /** The payload that sendFilenameState builds. */
  function FilenamePayload(windowSize: u32, bufferSize: u32, toFile: Octets): Octets {
    Be32(windowSize) + Be32(bufferSize) + toFile + [0]
  }

  /** The window size comes first, then the buffer size, then the name and a NUL. */
  lemma FilenameLayout(windowSize: u32, bufferSize: u32, toFile: Octets)
    ensures var d := FilenamePayload(windowSize, bufferSize, toFile);
            && |d| == 8 + |toFile| + 1 && d[8..8 + |toFile|] == toFile && d[8 + |toFile|] == 0
            && var w0: int, w1: int, w2: int := d[0], d[1], d[2];
               windowSize == ((w0 * 256 + w1) * 256 + w2) * 256 + d[3]
    ensures var d := FilenamePayload(windowSize, bufferSize, toFile);
            var b0: int, b1: int, b2: int := d[4], d[5], d[6];
            bufferSize == ((b0 * 256 + b1) * 256 + b2) * 256 + d[7]
  {
    Be32IsBigEndian(windowSize);
    Be32IsBigEndian(bufferSize);
    var d := FilenamePayload(windowSize, bufferSize, toFile);
    assert d[0] == Be32(windowSize)[0] && d[1] == Be32(windowSize)[1];
    assert d[2] == Be32(windowSize)[2] && d[3] == Be32(windowSize)[3];
    assert d[4] == Be32(bufferSize)[0] && d[5] == Be32(bufferSize)[1];
    assert d[6] == Be32(bufferSize)[2] && d[7] == Be32(bufferSize)[3];
  }

  /** Assigning a `uint32_t` to an `int`. */
  function ToInt(n: u32): (r: i32)
    ensures r == n || r == n - 0x1_0000_0000
  {
    if n < 0x8000_0000 then n else n - 0x1_0000_0000
  }

  /** The string that `strncpy` copies: up to the first NUL, at most `limit` bytes. */
  function StringPrefix(b: Octets, limit: nat): Octets {
    if limit == 0 || |b| == 0 || b[0] == 0 then []
    else [b[0]] + StringPrefix(b[1..], limit - 1)
  }

  /** `parseFilenamePacket`, server.c, on a receive buffer that holds a PDU of `pduLen` bytes. */
  function ParseFilename(buffer: Octets, pduLen: nat): Option<FilenameInfo>
    requires pduLen <= |buffer|
  {
    if pduLen < HEADER_LEN + 8 + 1 then None
    else Some(FilenameInfo(ToInt(FromBe32(buffer[7..])), ToInt(FromBe32(buffer[11..])),
                           StringPrefix(buffer[15..], MAX_NAME_LEN)))
  }

  lemma {:induction false} StringPrefixStops(name: Octets, rest: Octets, limit: nat)
    requires 0 !in name && |name| <= limit
    ensures StringPrefix(name + [0] + rest, limit) == name
  {
    var b := name + [0] + rest;
    if name != [] {
      StringPrefixStops(name[1..], rest, limit - 1);
      assert b[1..] == name[1..] + [0] + rest;
    }
  }

  /** A longer string is cut at the limit. */
  lemma {:induction false} StringPrefixCuts(b: Octets, limit: nat)
    requires limit <= |b| && 0 !in b[..limit]
    ensures StringPrefix(b, limit) == b[..limit]
  {
    if limit > 0 {
      assert b[0] == b[..limit][0] && b[1..][..limit - 1] == b[..limit][1..];
      StringPrefixCuts(b[1..], limit - 1);
    }
  }

  /** A name that does not end within a hundred bytes is cut there. */
  lemma LongNameIsCut(buffer: Octets, pduLen: nat)
    requires 16 <= pduLen <= |buffer| && |buffer| >= 115 && 0 !in buffer[15..115]
    ensures ParseFilename(buffer, pduLen).Some? && ParseFilename(buffer, pduLen).value.toFile == buffer[15..115]
  {
    assert buffer[15..][..100] == buffer[15..115];
    StringPrefixCuts(buffer[15..], 100);
  }

  /** The server recovers the window size, the buffer size and the file name, whatever is
      left in its receive buffer behind the PDU. */
  lemma FilenameRoundTrip(p: Octets, windowSize: u32, bufferSize: u32, toFile: Octets, stale: Octets)
    requires windowSize < 0x8000_0000 && bufferSize < 0x8000_0000
    requires 0 !in toFile && |toFile| <= 100
    requires |p| >= HEADER_LEN && Payload(p) == FilenamePayload(windowSize, bufferSize, toFile)
    ensures ParseFilename(p + stale, |p|) == Some(FilenameInfo(windowSize, bufferSize, toFile))
  {
    var d, b := Payload(p), p + stale;
    assert b[7..] == d + stale;
    assert forall i :: 0 <= i < 4 ==> b[7 + i] == d[i] == Be32(windowSize)[i];
    assert forall i :: 0 <= i < 4 ==> b[11 + i] == d[4 + i] == Be32(bufferSize)[i];
    Be32RoundTrip(windowSize);
    Be32RoundTrip(bufferSize);
    assert d[8..] == toFile + [0];
    assert b[15..] == toFile + [0] + stale;
    StringPrefixStops(toFile, stale, MAX_NAME_LEN);
  }
}

/** The earlier receiver, bufferold.c: an explicit window instead of a state machine. */
module OldReceiver {
  import opened Bytes
  import opened Pdu
  import opened Ring
  import opened ReceiverSpec
  import opened Receiver

  datatype Response = SendRR(n: nat) | SendSREJ(n: nat) | SendIgnore | Failed

  /** What `processData` does to the packets it has. */
  function OldReceive(v: RecvView, size: nat, seqNum: nat, data: Octets): RecvView {
    if seqNum < v.expected || seqNum >= v.expected + size then v
    else if seqNum == v.expected then Receive(v, seqNum, data)
    else if seqNum in v.got || data == [] || |data| > MAX_DATA_SIZE then v
    else Receive(v, seqNum, data)
  }

  function OldResponse(v: RecvView, size: nat, seqNum: nat, data: Octets): Response {
    if seqNum < v.expected then SendRR(v.expected)
    else if seqNum >= v.expected + size then SendIgnore
    else if seqNum == v.expected then SendRR(Receive(v, seqNum, data).expected)
    else if seqNum !in v.got && (data == [] || |data| > MAX_DATA_SIZE) then Failed
    else SendSREJ(seqNum)
  }

  /** What the answer means: an RR carries the least number that is then missing, an SREJ the
      number of the early packet that has just come, and nothing else is answered. */
  lemma OldAnswers(v: RecvView, size: nat, seqNum: nat, data: Octets)
    requires v.Ok() && size > 0
    ensures var r, v' := OldResponse(v, size, seqNum, data), OldReceive(v, size, seqNum, data);
            && v'.Ok()
            && (r.SendRR? <==> seqNum <= v.expected)
            && (r.SendRR? ==> r.n == v'.expected && r.n !in v'.got && forall k: nat :: k < r.n ==> k in v'.got)
            && (r.SendSREJ? ==> r.n == seqNum > v.expected && seqNum in v'.got)
            && (r.SendIgnore? <==> seqNum >= v.expected + size)
            && (r.Failed? <==> v.expected < seqNum < v.expected + size && seqNum !in v.got && !(1 <= |data| <= 1400))
  {
    if seqNum == v.expected || (v.expected < seqNum < v.expected + size && seqNum !in v.got) {
      ReceiveKeepsOk(v, seqNum, data);
    }
    if seqNum > v.expected && seqNum !in v.got {
      assert seqNum in Receive(v, seqNum, data).got;
    }
  }

  class OldBuffer {
    const packets: array<BufferEntry>
    const bufferSize: u32
    var lower: u32
    var upper: u32
    var output: Octets
    ghost var got: map<nat, Octets>

    /** The window and the ring, wherever the flush loop stands. */
    ghost predicate Windowed()
      reads this, packets
    {
      && packets.Length == bufferSize
      && upper == lower + bufferSize
      && Stored(packets[..], got, lower, output)
    }

    ghost predicate Valid()
      reads this, packets
    {
      Windowed() && lower as nat !in got
    }

    ghost function View(): RecvView
      reads this
    {
      RecvView(got, lower)
    }

    /** `bufferSetUp`. */
    constructor (size: u32)
      requires 0 < size < 0x8000_0000
      ensures Valid() && fresh(packets) && View() == EMPTY && bufferSize == size && output == []
    {
      packets := new BufferEntry[size](_ => BufferEntry(0, false, []));
      bufferSize := size;
      lower, upper, output := 0, size, [];
      got := map[];
    }

    predicate InBufferWindow(seqNum: u32)
      reads this
    {
      lower <= seqNum < upper
    }

    /** `bufferHasPacket`. */
    method BufferHasPacket(seqNum: u32) returns (has: bool)
      requires Windowed()
      ensures has <==> InBufferWindow(seqNum) && seqNum as nat in got
    {
      if !InBufferWindow(seqNum) {
        return false;
      }
      SlotOfWindow(packets[..], got, lower, seqNum);
      var packet := packets[Slot(seqNum, bufferSize)];
      return packet.validFlag && packet.seqNum == seqNum;
    }

    /** `bufferStorePacket`. */
    method BufferStorePacket(seqNum: u32, data: Octets) returns (status: int)
      requires Windowed() && seqNum < UINT32_MAX - 1
      modifies packets, this`got
      ensures Windowed()
      ensures status == if InBufferWindow(seqNum) && 0 < |data| <= MAX_DATA_SIZE then 0 else -1
      ensures got == if status == 0 then old(got)[seqNum as nat := data] else old(got)
    {
      if !InBufferWindow(seqNum) {
        return -1;
      }
      if |data| == 0 || |data| > MAX_DATA_SIZE {
        return -1;
      }
      ghost var slots := packets[..];
      StoreEarly(slots, got, lower, output, seqNum, data);
      packets[Slot(seqNum, bufferSize)] := BufferEntry(seqNum, true, data);
      assert packets[..] == Store(slots, seqNum, data);
      got := got[seqNum as nat := data];
      return 0;
    }

    /** `bufferWriteSlide`. */
    method BufferWriteSlide()
      requires Windowed() && RoomAbove()
      modifies this`lower, this`upper, this`output, packets
      ensures Valid()
      ensures lower == FirstMissing(got, old(lower))
    {
      var has := BufferHasPacket(lower);
      while has
        invariant Windowed() && RoomAbove()
        invariant has <==> lower as nat in got
        invariant FirstMissing(got, lower) == FirstMissing(got, old(lower))
        decreases FirstMissing(got, lower) - lower
      {
        ghost var slots := packets[..];
        FlushOne(slots, got, lower, output);
        var index := Slot(lower, bufferSize);
        output := output + packets[index].data;
        packets[index] := packets[index].(validFlag := false);
        assert packets[..] == Clear(slots, lower);
        lower := lower + 1;
        upper := upper + 1;
        has := BufferHasPacket(lower);
      }
    }

    /** The numbers in use leave room for `upper` below 2^32. */
    ghost predicate RoomAbove()
      reads this
    {
      forall k :: k in got ==> k + 1 + bufferSize <= UINT32_MAX
    }

    /** `processData`. */
    method ProcessData(seqNum: u32, data: Octets) returns (response: Response)
      requires Valid() && RoomAbove() && seqNum as nat + 1 + bufferSize <= UINT32_MAX && seqNum < UINT32_MAX - 1
      modifies this, packets
      ensures Valid() && RoomAbove()
      ensures View() == OldReceive(old(View()), bufferSize, seqNum, data)
      ensures response == OldResponse(old(View()), bufferSize, seqNum, data)
    {
      if seqNum < lower {
        return SendRR(lower);
      }
      if seqNum >= upper {
        return SendIgnore;
      }
      if seqNum == lower {
        WriteExpected(packets[..], got, lower, output, data);
        output := output + data;
        got := got[seqNum as nat := data];
        lower := lower + 1;
        upper := lower + bufferSize;
        BufferWriteSlide();
        return SendRR(lower);
      }
      var has := BufferHasPacket(seqNum);
      if !has {
        var status := BufferStorePacket(seqNum, data);
        if status < 0 {
          return Failed;
        }
      }
      return SendSREJ(seqNum);
    }
  }

  // ---------------------------------------------------------------- agreement

  function OldRun(v: RecvView, size: nat, packets: seq<Packet>): RecvView
    decreases packets
  {
    if packets == [] then v
    else OldRun(OldReceive(v, size, packets[0].seqNum, packets[0].payload), size, packets[1..])
  }

  /** Every packet is below the window's upper edge when it arrives. */
  ghost predicate InWindowRun(v: RecvView, size: nat, packets: seq<Packet>)
    decreases packets
  {
    packets != [] ==>
      && packets[0].seqNum < v.expected + size
      && InWindowRun(Receive(v, packets[0].seqNum, packets[0].payload), size, packets[1..])
  }

  /** Both receivers accept the same packets, wait for the same number and write the same file
      on every run of in-window packets with real payloads, any order and any duplicates. */
  lemma TwoReceiversAgree(size: nat, packets: seq<Packet>, original: map<nat, Octets>)
    requires InWindowRun(EMPTY, size, packets) && Genuine(packets, original)
    requires forall p :: p in packets ==> 0 < |p.payload| <= MAX_DATA_SIZE
    ensures OldRun(EMPTY, size, packets) == Run(EMPTY, packets)
  {
    AgreeFrom(EMPTY, size, packets, original);
  }

  lemma {:induction false} AgreeFrom(v: RecvView, size: nat, packets: seq<Packet>, original: map<nat, Octets>)
    requires v.Ok() && InWindowRun(v, size, packets) && Genuine(packets, original)
    requires forall p :: p in packets ==> 0 < |p.payload| <= MAX_DATA_SIZE
    requires forall k :: k in v.got ==> k in original && v.got[k] == original[k]
    ensures OldRun(v, size, packets) == Run(v, packets)
    decreases packets
  {
    if packets != [] {
      var p, rest := packets[0], packets[1..];
      var v' := Receive(v, p.seqNum, p.payload);
      assert p in packets;
      ReceiveKeepsOk(v, p.seqNum, p.payload);
      assert OldReceive(v, size, p.seqNum, p.payload) == v' by {
        if p.seqNum in v.got && p.seqNum > v.expected {
          assert v.got[p.seqNum := p.payload] == v.got;
        }
      }
      AgreeFrom(v', size, rest, original);
    }
  }

  /** On one packet the two receivers part exactly when it is above the window, or early and
      either differs from the copy already held or has a size that bufferold.c refuses. */
  lemma AgreeOnOneIff(v: RecvView, size: nat, seqNum: nat, data: Octets)
    requires v.Ok() && forall k :: k in v.got ==> k < v.expected + size
    ensures OldReceive(v, size, seqNum, data) == Receive(v, seqNum, data) <==>
            && seqNum < v.expected + size
            && (seqNum > v.expected ==>
                  if seqNum in v.got then v.got[seqNum] == data else 0 < |data| <= MAX_DATA_SIZE)
  {
    if seqNum > v.expected {
      var v' := Receive(v, seqNum, data);
      assert seqNum in v'.got && v'.got[seqNum] == data;
      if seqNum in v.got && v.got[seqNum] == data {
        assert v.got[seqNum := data] == v.got;
      }
    }
  }

  /** Equal views mean equal files. */
  lemma SameFile(b: Buffer, o: OldBuffer)
    requires b.Valid() && o.Valid() && b.View() == o.View()
    ensures b.output == o.output && b.expected == o.lower
  {
  }
}

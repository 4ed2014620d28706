/** The receiver's reordering buffer, buffer.c. */
module Receiver {
  import opened Bytes
  import opened Checksum
  import opened Pdu
  import opened Ring
  import opened ReceiverSpec

  datatype BufferState = INORDER | BUFFERING | FLUSHING

  datatype BufferEntry = BufferEntry(seqNum: u32, validFlag: bool, data: Octets)

  // ---------------------------------------------------------------- the ring

  ghost predicate HasEntry(slots: seq<BufferEntry>, k: nat, data: Octets)
    requires |slots| > 0
  {
    var b := slots[Slot(k, |slots|)];
    b.validFlag && b.seqNum == k && b.data == data
  }

  ghost predicate EntryPlaced(slots: seq<BufferEntry>, i: nat, got: map<nat, Octets>, from: nat)
    requires i < |slots|
  {
    var b := slots[i];
    b.validFlag ==> b.seqNum in got && from <= b.seqNum < from + |slots| && Slot(b.seqNum, |slots|) == i
  }

  /** The valid slots are exactly the received packets from number `from` on. */
  ghost predicate RingOk(slots: seq<BufferEntry>, got: map<nat, Octets>, from: nat) {
    && |slots| > 0
    && (forall k :: k in got && k >= from ==> HasEntry(slots, k, got[k]))
    && (forall i: nat :: i < |slots| ==> EntryPlaced(slots, i, got, from))
  }

  /** `bufferPacket`: nothing is checked. */
  function Store(slots: seq<BufferEntry>, seqNum: u32, data: Octets): (r: seq<BufferEntry>)
    requires |slots| > 0
    ensures |r| == |slots|
  {
    slots[Slot(seqNum, |slots|) := BufferEntry(seqNum, true, data)]
  }

  lemma InWindow(slots: seq<BufferEntry>, got: map<nat, Octets>, from: nat, k: nat)
    requires RingOk(slots, got, from) && k in got
    ensures k < from + |slots|
  {
    if k >= from {
      assert HasEntry(slots, k, got[k]);
      var i := Slot(k, |slots|);
      assert EntryPlaced(slots, i, got, from);
    }
  }

  /** Storing a packet of the window never overwrites a different packet. */
  lemma StoreKeepsRing(slots: seq<BufferEntry>, got: map<nat, Octets>, from: nat, seqNum: u32, data: Octets)
    requires RingOk(slots, got, from) && from <= seqNum < from + |slots|
    ensures RingOk(Store(slots, seqNum, data), got[seqNum := data], from)
  {
    var slots', got' := Store(slots, seqNum, data), got[seqNum := data];
    forall k | k in got' && k >= from ensures HasEntry(slots', k, got'[k]) {
      if k != seqNum {
        assert HasEntry(slots, k, got[k]);
        InWindow(slots, got, from, k);
        SlotsDiffer(if k < seqNum then k else seqNum, if k < seqNum then seqNum else k, |slots|);
      }
    }
    forall i: nat | i < |slots| ensures EntryPlaced(slots', i, got', from) {
      assert EntryPlaced(slots, i, got, from);
    }
  }

  /** Exactly when `bufferPacket` keeps every other packet that waits: its slot is free or holds
      the same number. */
  lemma StoreKeepsOthersIff(slots: seq<BufferEntry>, got: map<nat, Octets>, from: nat, seqNum: u32, data: Octets)
    requires RingOk(slots, got, from)
    ensures (forall k :: k in got && k >= from && k != seqNum ==> HasEntry(Store(slots, seqNum, data), k, got[k]))
            <==> (var b := slots[Slot(seqNum, |slots|)]; !b.validFlag || b.seqNum == seqNum)
  {
    var i, slots' := Slot(seqNum, |slots|), Store(slots, seqNum, data);
    var b := slots[i];
    assert EntryPlaced(slots, i, got, from);
    if b.validFlag && b.seqNum != seqNum {
      assert !HasEntry(slots', b.seqNum, got[b.seqNum as nat]);
    } else {
      forall k | k in got && k >= from && k != seqNum ensures HasEntry(slots', k, got[k]) {
        assert HasEntry(slots, k, got[k]);
      }
    }
  }

  /** Outside the window that safety is gone: a packet one window above a buffered one takes
      its slot, and the buffered packet is lost. */
  lemma StoreOutsideWindowLoses(slots: seq<BufferEntry>, got: map<nat, Octets>, from: nat, k: nat, seqNum: u32, data: Octets)
    requires RingOk(slots, got, from) && k in got && k >= from
    requires seqNum == k + |slots|
    ensures !HasEntry(Store(slots, seqNum, data), k, got[k])
  {
    SlotRepeats(k, |slots|);
  }

  /** In the window, a slot tells whether its packet has been received. */
  lemma SlotOfWindow(slots: seq<BufferEntry>, got: map<nat, Octets>, from: nat, k: nat)
    requires RingOk(slots, got, from) && from <= k < from + |slots|
    ensures var b := slots[Slot(k, |slots|)];
            && (k in got <==> b.validFlag && b.seqNum == k)
            && (k in got ==> b.data == got[k])
  {
    assert k in got ==> HasEntry(slots, k, got[k]);
    var i := Slot(k, |slots|);
    assert EntryPlaced(slots, i, got, from);
  }

  lemma ClearKeepsRing(slots: seq<BufferEntry>, got: map<nat, Octets>, from: nat)
    requires RingOk(slots, got, from) && from in got
    ensures var i := Slot(from, |slots|);
            RingOk(slots[i := slots[i].(validFlag := false)], got, from + 1)
  {
    var j, next := Slot(from, |slots|), from + 1;
    var slots' := slots[j := slots[j].(validFlag := false)];
    assert HasEntry(slots, from, got[from]);
    forall k | k in got && k >= next ensures HasEntry(slots', k, got[k]) {
      assert HasEntry(slots, k, got[k]);
      InWindow(slots, got, from, k);
      SlotsDiffer(from, k, |slots|);
    }
    forall i: nat | i < |slots| ensures EntryPlaced(slots', i, got, next) {
      assert EntryPlaced(slots, i, got, from);
    }
  }

  /** The expected packet is written without passing through the ring. */
  lemma WriteKeepsRing(slots: seq<BufferEntry>, got: map<nat, Octets>, from: nat, data: Octets)
    requires RingOk(slots, got, from) && from !in got
    ensures RingOk(slots, got[from := data], from + 1)
  {
    var got', next := got[from := data], from + 1;
    forall k | k in got' && k >= next ensures HasEntry(slots, k, got'[k]) {
      assert HasEntry(slots, k, got[k]);
    }
    forall i: nat | i < |slots| ensures EntryPlaced(slots, i, got', next) {
      assert EntryPlaced(slots, i, got, from);
    }
  }

  // ---------------------------------------------------------------- ring and file together

  /** The ring holds what waits, the file what does not; sequence numbers stay so small that
      UINT32_MAX is a safe sentinel for `lastSREJ`. */
  ghost predicate Stored(slots: seq<BufferEntry>, got: map<nat, Octets>, expected: nat, output: Octets) {
    && RingOk(slots, got, expected)
    && (forall k: nat :: k < expected ==> k in got)
    && output == Output(got, expected)
    && (forall k :: k in got ==> k < UINT32_MAX - 1)
  }

  lemma StoredBelowMax(slots: seq<BufferEntry>, got: map<nat, Octets>, expected: nat, output: Octets)
    requires Stored(slots, got, expected, output)
    ensures expected < UINT32_MAX
  {
    if expected > 0 {
      assert expected - 1 in got;
    }
  }

  lemma WriteExpected(slots: seq<BufferEntry>, got: map<nat, Octets>, expected: nat, output: Octets, data: Octets)
    requires Stored(slots, got, expected, output) && expected !in got && expected < UINT32_MAX - 1
    ensures Stored(slots, got[expected := data], expected + 1, output + data)
  {
    WriteKeepsRing(slots, got, expected, data);
    OutputDependsOnPrefix(got, got[expected := data], expected);
  }

  lemma StoreEarly(slots: seq<BufferEntry>, got: map<nat, Octets>, expected: nat, output: Octets, seqNum: u32, data: Octets)
    requires Stored(slots, got, expected, output)
    requires expected <= seqNum < expected + |slots| && seqNum < UINT32_MAX - 1
    ensures Stored(Store(slots, seqNum, data), got[seqNum := data], expected, output)
  {
    StoreKeepsRing(slots, got, expected, seqNum, data);
    OutputDependsOnPrefix(got, got[seqNum := data], expected);
  }

  ghost predicate IsHighest(got: map<nat, Octets>, highest: nat) {
    highest in got && forall k :: k in got ==> k <= highest
  }

  function Clear(slots: seq<BufferEntry>, k: nat): (r: seq<BufferEntry>)
    requires |slots| > 0
    ensures |r| == |slots|
  {
    var i := Slot(k, |slots|);
    slots[i := slots[i].(validFlag := false)]
  }

  /** One look of the flush loop at the slot of the expected packet. */
  lemma FlushOne(slots: seq<BufferEntry>, got: map<nat, Octets>, expected: nat, output: Octets)
    requires Stored(slots, got, expected, output)
    ensures var b := slots[Slot(expected, |slots|)];
            && (expected in got <==> b.validFlag && b.seqNum == expected)
            && (expected in got ==> Stored(Clear(slots, expected), got, expected + 1, output + b.data))
  {
    SlotOfWindow(slots, got, expected, expected);
    if expected in got {
      ClearKeepsRing(slots, got, expected);
    }
  }

  // ---------------------------------------------------------------- control messages

  /** The PDU for a control message. */
  function ControlBytes(ackSeqNum: u32, c: Control): Octets {
    ControlPdu(ackSeqNum, if c.RR? then FLAG_RR else FLAG_SREJ, ToU32(c.n))
  }

  /** A control message as it was sent: the PDU on the wire is ControlBytes(ackSeqNum, c). */
  datatype Sent = Sent(ackSeqNum: u32, c: Control)

  function Stamped(ackSeqNum: u32, c: seq<Control>): seq<Sent>
    requires |c| <= 1
  {
    if c == [] then [] else [Sent(ackSeqNum, c[0])]
  }

  // ---------------------------------------------------------------- the receiver

  class Buffer {
    const buffer: array<BufferEntry>
    const windowSize: u32
    var expected: u32
    var highest: u32
    var state: BufferState
    var ackSeqNum: u32
    var lastSREJ: u32
    var output: Octets         // what writePacketToDisk has appended to the file
    var sent: seq<Sent>        // the control messages handed to sendtoErr
    ghost var got: map<nat, Octets>

    /** What `state` means; never FLUSHING between two PDUs. */
    ghost predicate Means(st: BufferState)
      reads this
    {
      match st
      case INORDER => !View().HasGap() && lastSREJ == UINT32_MAX
      case BUFFERING =>
        && expected < highest && IsHighest(got, highest)
        && lastSREJ == expected
      case FLUSHING => false
    }

    ghost function View(): RecvView
      reads this
    {
      RecvView(got, expected)
    }

    ghost predicate ValidIn(st: BufferState)
      reads this, buffer
      ensures ValidIn(st) ==> View().Ok()
    {
      && buffer.Length == windowSize
      && Stored(buffer[..], got, expected, output)
      && expected as nat !in got
      && Means(st)
    }

    ghost predicate Valid()
      reads this, buffer
    {
      ValidIn(state)
    }

    /** `bufferInit`. */
    constructor (size: u32)
      requires 0 < size < 0x8000_0000
      ensures Valid() && fresh(buffer)
      ensures View() == EMPTY && windowSize == size && ackSeqNum == 0 && output == [] && sent == []
    {
      windowSize := size;
      buffer := new BufferEntry[size](_ => BufferEntry(0, false, []));
      expected, highest, state := 0, 0, INORDER;
      ackSeqNum, lastSREJ := 0, UINT32_MAX;
      output, sent := [], [];
      got := map[];
    }

    /** `sendControl`; `pdu` is what it hands to sendtoErr. */
    method SendControl(c: Control) returns (pdu: Octets)
      requires c.n <= UINT32_MAX
      modifies this`ackSeqNum, this`sent
      ensures pdu == ControlBytes(old(ackSeqNum), c)
      ensures ackSeqNum == Increment(old(ackSeqNum))
      ensures sent == old(sent) + [Sent(old(ackSeqNum), c)]
    {
      var buf := new byte[HEADER_LEN + 4];
      var pduLen := CreatePdu(Little, buf, ackSeqNum, if c.RR? then FLAG_RR else FLAG_SREJ, Be32(c.n));
      pdu := buf[..pduLen];
      sent := sent + [Sent(ackSeqNum, c)];
      ackSeqNum := Increment(ackSeqNum);
    }

    method SendRR()
      modifies this`ackSeqNum, this`sent
      ensures ackSeqNum == Increment(old(ackSeqNum))
      ensures sent == old(sent) + [Sent(old(ackSeqNum), RR(expected))]
    {
      var _ := SendControl(RR(expected));
    }

    method SendSREJOnce()
      modifies this`ackSeqNum, this`sent, this`lastSREJ
      ensures lastSREJ == expected
      ensures old(lastSREJ) == expected ==> sent == old(sent) && ackSeqNum == old(ackSeqNum)
      ensures old(lastSREJ) != expected ==>
                && ackSeqNum == Increment(old(ackSeqNum))
                && sent == old(sent) + [Sent(old(ackSeqNum), SREJ(expected))]
    {
      if lastSREJ != expected {
        var _ := SendControl(SREJ(expected));
        lastSREJ := expected;
      }
    }

    method WritePacketToDisk(data: Octets)
      modifies this`output
      ensures output == old(output) + data
    {
      output := output + data;
    }

    /** `bufferPacket`: in the window it keeps everything that is stored. */
    method BufferPacket(seqNum: u32, data: Octets)
      requires windowSize > 0 && buffer.Length == windowSize
      modifies buffer, this`got
      ensures buffer[..] == Store(old(buffer[..]), seqNum, data)
      ensures got == old(got)[seqNum as nat := data]
      ensures old(Stored(buffer[..], got, expected, output)) && expected < seqNum && Accepts(seqNum) ==>
                Stored(buffer[..], got, expected, output)
    {
      ghost var slots := buffer[..];
      if Stored(slots, got, expected, output) && expected < seqNum && Accepts(seqNum) {
        StoreEarly(slots, got, expected, output, seqNum, data);
      }
      buffer[Slot(seqNum, windowSize)] := BufferEntry(seqNum, true, data);
      got := got[seqNum as nat := data];
      assert buffer[..] == Store(slots, seqNum, data);
    }

    /** What a PDU numbered `recvSeq` must satisfy for the buffer to stay intact: buffer.c does
        not check it, the protocol guarantees it (Transfer.DeliverableIsInWindow). */
    ghost predicate Accepts(recvSeq: nat)
      reads this
    {
      recvSeq < expected as nat + windowSize && recvSeq < UINT32_MAX - 1
    }

    /** The answers sent since the state `sent0`, `ack0`. */
    ghost predicate Answered(sent0: seq<Sent>, ack0: u32, c: seq<Control>)
      requires |c| <= 1
      reads this
    {
      && sent == sent0 + Stamped(ack0, c)
      && ackSeqNum == if c == [] then ack0 else Increment(ack0)
    }

    method InOrderState(recvSeq: u32, payload: Octets) returns (st: BufferState)
      requires Valid() && state == INORDER && Accepts(recvSeq)
      modifies this, buffer
      ensures ValidIn(st)
      ensures View() == Receive(old(View()), recvSeq, payload)
      ensures Answered(old(sent), old(ackSeqNum), Reply(old(View()), recvSeq, payload))
    {
      if recvSeq == expected {
        WriteExpected(buffer[..], got, expected, output, payload);
        WritePacketToDisk(payload);
        got := got[recvSeq as nat := payload];
        highest := expected;
        expected := expected + 1;
        LeastMissingIsUnique(got, recvSeq, expected);
        SendRR();
        return INORDER;
      }
      if recvSeq > expected {
        BufferPacket(recvSeq, payload);
        highest := recvSeq;
        StoredBelowMax(buffer[..], got, expected, output);
        SendSREJOnce();
        return BUFFERING;
      }
      SendRR();
      return INORDER;
    }

    method BufferingState(recvSeq: u32, payload: Octets) returns (st: BufferState)
      requires Valid() && state == BUFFERING && Accepts(recvSeq)
      modifies this, buffer
      ensures ValidIn(st)
      ensures View() == Receive(old(View()), recvSeq, payload)
      ensures Answered(old(sent), old(ackSeqNum), Reply(old(View()), recvSeq, payload))
    {
      if recvSeq == expected {
        WriteExpected(buffer[..], got, expected, output, payload);
        lastSREJ := UINT32_MAX;
        WritePacketToDisk(payload);
        got := got[recvSeq as nat := payload];
        expected := expected + 1;
        st := FlushingState();
        return;
      }
      if recvSeq > expected {
        BufferingEarly(recvSeq, payload);
        return BUFFERING;
      }
      assert highest as nat in got;
      SendRR();
      return BUFFERING;
    }

    /** The branch of `bufferingState` for a packet beyond the expected one. */
    method BufferingEarly(recvSeq: u32, payload: Octets)
      requires Valid() && state == BUFFERING && Accepts(recvSeq) && recvSeq > expected
      modifies this, buffer
      ensures ValidIn(BUFFERING)
      ensures View() == Receive(old(View()), recvSeq, payload)
      ensures Reply(old(View()), recvSeq, payload) == [] && sent == old(sent) && ackSeqNum == old(ackSeqNum)
    {
      assert highest as nat in got && View().HasGap();
      BufferPacket(recvSeq, payload);
      if recvSeq > highest {
        highest := recvSeq;
      }
      SendSREJOnce();
    }

    /** The loop of `flushingState`: each pass clears one valid slot. */
    method FlushRun()
      requires buffer.Length == windowSize && Stored(buffer[..], got, expected, output)
      modifies this`expected, this`output, buffer
      ensures Stored(buffer[..], got, expected, output)
      ensures expected == FirstMissing(got, old(expected)) < UINT32_MAX
    {
      while true
        invariant Stored(buffer[..], got, expected, output)
        invariant FirstMissing(got, expected) == FirstMissing(got, old(expected))
        decreases FirstMissing(got, expected) - expected
      {
        ghost var slots := buffer[..];
        FlushOne(slots, got, expected, output);
        StoredBelowMax(slots, got, expected, output);
        var index := Slot(expected, windowSize);
        if !buffer[index].validFlag || buffer[index].seqNum != expected {
          break;
        }
        WritePacketToDisk(buffer[index].data);
        buffer[index] := buffer[index].(validFlag := false);
        assert buffer[..] == Clear(slots, expected);
        expected := expected + 1;
      }
    }

    method FlushingState() returns (st: BufferState)
      requires buffer.Length == windowSize && Stored(buffer[..], got, expected, output)
      requires lastSREJ == UINT32_MAX && IsHighest(got, highest)
      modifies this, buffer
      ensures ValidIn(st) && got == old(got)
      ensures expected == FirstMissing(got, old(expected))
      ensures Answered(old(sent), old(ackSeqNum), [if View().HasGap() then SREJ(expected) else RR(expected)])
    {
      FlushRun();
      if expected <= highest {
        SendSREJOnce();
        return BUFFERING;
      }
      SendRR();
      return INORDER;
    }

    /** `bufferProcessPDU`. */
    method BufferProcessPDU(pdu: Octets)
      requires Valid() && |pdu| >= HEADER_LEN
      requires ChecksumOk(Little, pdu) && Flag(pdu) == FLAG_DATA ==> Accepts(SequenceNum(pdu))
      modifies this, buffer
      ensures Valid()
      ensures !(ChecksumOk(Little, pdu) && Flag(pdu) == FLAG_DATA) ==>
                View() == old(View()) && sent == old(sent) && ackSeqNum == old(ackSeqNum)
      ensures ChecksumOk(Little, pdu) && Flag(pdu) == FLAG_DATA ==>
                && View() == Receive(old(View()), SequenceNum(pdu), Payload(pdu))
                && Answered(old(sent), old(ackSeqNum), Reply(old(View()), SequenceNum(pdu), Payload(pdu)))
    {
      if !ChecksumOk(Little, pdu) {
        return;
      }
      if Flag(pdu) != FLAG_DATA {
        return;
      }
      var recvSeq, payload := SequenceNum(pdu), Payload(pdu);
      match state
      case INORDER => state := InOrderState(recvSeq, payload);
      case BUFFERING => state := BufferingState(recvSeq, payload);
      case FLUSHING => assert false;
    }
  }

  /** Between two PDUs: BUFFERING means that something waits in the ring, and then the slot of
      `highest` is valid; the expected packet is never in the ring. */
  lemma StateMeaning(b: Buffer)
    requires b.Valid()
    ensures b.state != FLUSHING
    ensures b.state == BUFFERING <==> exists i :: 0 <= i < b.buffer.Length && b.buffer[i].validFlag
    ensures forall i :: 0 <= i < b.buffer.Length && b.buffer[i].validFlag ==> b.buffer[i].seqNum > b.expected
    ensures b.state == BUFFERING ==>
              var top := b.buffer[Slot(b.highest, b.windowSize)];
              b.highest > b.expected && top.validFlag && top.seqNum == b.highest
  {
    var slots := b.buffer[..];
    forall i: nat | i < |slots| && slots[i].validFlag
      ensures slots[i].seqNum > b.expected && b.View().HasGap()
    {
      assert EntryPlaced(slots, i, b.got, b.expected);
      assert slots[i].seqNum as nat in b.got;
    }
    if b.state == BUFFERING {
      assert HasEntry(slots, b.highest, b.got[b.highest as nat]);
    }
  }
}

/** The server's child process, server.c, over the buffer of buffer.c. */
module FileServer {
  import opened Bytes
  import opened Checksum
  import opened Pdu
  import opened ReceiverSpec
  import opened Receiver
  import opened SenderSpec
  import opened ServerSpec

  /** The promise that the rest of the protocol keeps (Transfer.DeliverableIsInWindow): every
      data packet of the script is in the window when its turn comes. */
  ghost predicate InWindowScript(s: Server, script: seq<ServerInput>) {
    forall n :: 0 <= n < |script| && IsData(script[n]) ==>
      var seqNum := SequenceNum(script[n].p);
      && seqNum < RunServer(s, script[..n]).next.recv.expected + s.windowSize
      && seqNum < UINT32_MAX - 1
  }

  class ServerInfo {
    var windowSize: i32
    var bufferSize: i32
    var toFile: Octets
    var controlSeqNum: u32
    var wire: seq<Octets>    // PDUs handed to sendtoErr

    constructor ()
      ensures controlSeqNum == 0 && wire == [] && windowSize == 0
    {
      windowSize, bufferSize, toFile, controlSeqNum, wire := 0, 0, [], 0, [];
    }

    /** `parseFilenamePacket`. */
    method ParseFilenamePacket(pdu: Octets, pduLen: nat) returns (status: int)
      requires pduLen <= |pdu|
      modifies this`windowSize, this`bufferSize, this`toFile
      ensures status == if ParseFilename(pdu, pduLen).Some? then 0 else -1
      ensures status == 0 ==> ParseFilename(pdu, pduLen).value == FilenameInfo(windowSize, bufferSize, toFile)
      ensures status != 0 ==> unchanged(this)
    {
      if pduLen < HEADER_LEN + 8 + 1 {
        return -1;
      }
      var offset := HEADER_LEN;
      windowSize := ToInt(FromBe32(pdu[offset..]));
      offset := offset + 4;
      bufferSize := ToInt(FromBe32(pdu[offset..]));
      offset := offset + 4;
      toFile := StringPrefix(pdu[offset..], MAX_NAME_LEN);
      return 0;
    }

    /** `sendServerControlPacket`. */
    method SendServerControlPacket(flag: byte, payload: Octets)
      requires |payload| <= MAX_DATA_SIZE
      modifies this`controlSeqNum, this`wire
      ensures controlSeqNum == Increment(old(controlSeqNum))
      ensures wire == old(wire) + [EncodePdu(Little, old(controlSeqNum), flag, payload)]
    {
      var pdu := new byte[MAX_PDU_SIZE];
      var pduLen := CreatePdu(Little, pdu, controlSeqNum, flag, payload);
      controlSeqNum := Increment(controlSeqNum);
      wire := wire + [pdu[..pduLen]];
    }

    ghost function View(phase: Phase, b: Buffer): Server
      reads this, b
    {
      Server(phase, windowSize, b.View(), controlSeqNum, b.ackSeqNum)
    }

    /** After `n` inputs of the script, this object, its buffer and the PDUs sent since `wire0`
        are what RunServer makes of them. */
    ghost predicate Follows(phase: Phase, b: Buffer, start: Server, wire0: seq<Octets>, script: seq<ServerInput>, n: nat)
      requires n <= |script|
      reads this, b, b.buffer
    {
      && b.Valid() && b.windowSize == windowSize && start.windowSize == windowSize
      && View(phase, b) == RunServer(start, script[..n]).next
      && wire == wire0 + RunServer(start, script[..n]).out
    }

    /** A data packet goes to the buffer, whose control message goes out on the same socket. */
    method GiveToBuffer(b: Buffer, pdu: Octets)
      requires b.Valid() && Usable(pdu) && Flag(pdu) == FLAG_DATA && b.Accepts(SequenceNum(pdu))
      modifies this`wire, b, b.buffer
      ensures b.Valid()
      ensures ServerResult(View(RECEIVING, b), wire) ==
              var r := DataStep(old(View(RECEIVING, b)), pdu);
              ServerResult(r.next, old(wire) + r.out)
    {
      hide ControlBytes;
      var sentBefore := |b.sent|;
      b.BufferProcessPDU(pdu);
      if |b.sent| > sentBefore {
        var last := b.sent[|b.sent| - 1];
        wire := wire + [ControlBytes(last.ackSeqNum, last.c)];
      }
    }

    lemma NextInput(start: Server, script: seq<ServerInput>, n: nat)
      requires n < |script|
      ensures var before := RunServer(start, script[..n]);
              var last := ServerStep(before.next, script[n]);
              RunServer(start, script[..n + 1]) == ServerResult(last.next, before.out + last.out)
    {
      RunServerNext(start, script[..n], script[n]);
      assert script[..n] + [script[n]] == script[..n + 1];
    }

    /** `receiveFile`, on a script of what its polls observe: it runs until it returns, or until
        the script ends. */
    method ReceiveFile(b: Buffer, script: seq<ServerInput>) returns (ghost phase: Phase, used: nat)
      requires b.Valid() && b.windowSize == windowSize
      requires InWindowScript(View(RECEIVING, b), script)
      modifies this`controlSeqNum, this`wire, b, b.buffer
      ensures used <= |script| && (used == |script| || phase == FINISHED)
      ensures Follows(phase, b, old(View(RECEIVING, b)), old(wire), script, used)
    {
      hide EncodePdu, ListenStep, DataStep;
      ghost var start, wire0 := View(RECEIVING, b), wire;
      used := 0;
      while used < |script|
        invariant used <= |script| && Follows(RECEIVING, b, start, wire0, script, used)
      {
        var i := script[used];
        NextInput(start, script, used);
        used := used + 1;
        if i.Timeout? {
          return FINISHED, used;
        }
        if !Usable(i.p) {
          continue;
        }
        if Flag(i.p) == FLAG_DATA {
          assert IsData(script[used - 1]);
          GiveToBuffer(b, i.p);
        } else if Flag(i.p) == FLAG_EOF {
          SendServerControlPacket(FLAG_EOF_ACK, []);
          phase, used := EofLoop(b, start, wire0, script, used);
          return;
        }
      }
      return RECEIVING, used;
    }

    /** The inner loop of `receiveFile`. */
    method EofLoop(b: Buffer, ghost start: Server, ghost wire0: seq<Octets>, script: seq<ServerInput>, from: nat)
      returns (ghost phase: Phase, used: nat)
      requires from <= |script| && Follows(EOF_LOOP(0), b, start, wire0, script, from)
      modifies this`controlSeqNum, this`wire
      ensures from <= used <= |script| && (used == |script| || phase == FINISHED)
      ensures Follows(phase, b, start, wire0, script, used)
    {
      hide EncodePdu, ListenStep, DataStep;
      var eofTries := 0;
      used := from;
      while eofTries < MAX_TRIES && used < |script|
        invariant from <= used <= |script| && eofTries <= MAX_TRIES
        invariant Follows(if eofTries < MAX_TRIES then EOF_LOOP(eofTries) else FINISHED, b, start, wire0, script, used)
      {
        var i := script[used];
        NextInput(start, script, used);
        used := used + 1;
        if i.Packet? && Usable(i.p) && Flag(i.p) == FLAG_FINAL_ACK {
          return FINISHED, used;
        }
        SendServerControlPacket(FLAG_EOF_ACK, []);
        eofTries := eofTries + 1;
      }
      phase := if eofTries < MAX_TRIES then EOF_LOOP(eofTries) else FINISHED;
    }

    /** The part of `processClient` before the receive loop; no buffer if the child gives up. */
    method AnswerRequest(firstPDU: Octets, firstLen: nat, opens: bool) returns (b: Buffer?)
      requires firstLen <= |firstPDU| && controlSeqNum == 0 && wire == [] && windowSize == 0
      requires IsFirstRequest(Request(firstPDU, firstLen, opens))
      modifies this
      ensures b != null ==> fresh(b) && fresh(b.buffer) && b.Valid() && b.windowSize == windowSize
      ensures var r := ListenStep(INITIAL_SERVER, Request(firstPDU, firstLen, opens));
              && wire == r.out
              && (b != null <==> r.next.phase == RECEIVING)
              && (b != null ==> View(RECEIVING, b) == r.next)
    {
      hide EncodePdu;
      assert firstPDU[..firstLen] + firstPDU[firstLen..] == firstPDU;
      var status := ParseFilenamePacket(firstPDU, firstLen);
      if status < 0 {
        return null;
      }
      if !opens {
        SendServerControlPacket(FLAG_FILENAME_RESPONSE, [1]);
        return null;
      }
      SendServerControlPacket(FLAG_FILENAME_RESPONSE, [0]);
      b := new Buffer(windowSize);
    }

    /** `processClient`, after the fork: request and script together are one run of the server,
        and the file holds what that run has received. */
    method ProcessClient(firstPDU: Octets, firstLen: nat, opens: bool, script: seq<ServerInput>)
      returns (ghost last: Server, output: Octets, used: nat)
      requires firstLen <= |firstPDU| && controlSeqNum == 0 && wire == [] && windowSize == 0
      requires IsFirstRequest(Request(firstPDU, firstLen, opens))
      requires var r := ListenStep(INITIAL_SERVER, Request(firstPDU, firstLen, opens));
               r.next.phase == RECEIVING ==> InWindowScript(r.next, script)
      modifies this
      ensures used <= |script| && (used == |script| || last.phase == FINISHED)
      ensures ServerResult(last, wire) == RunServer(INITIAL_SERVER, [Request(firstPDU, firstLen, opens)] + script[..used])
      ensures last.recv.Ok() && output == Output(last.recv.got, last.recv.expected)
    {
      hide EncodePdu, ListenStep;
      ghost var request := Request(firstPDU, firstLen, opens);
      OneInput(request);
      var b := AnswerRequest(firstPDU, firstLen, opens);
      if b == null {
        GaveUp(request);
        last, output, used := ListenStep(INITIAL_SERVER, request).next, [], 0;
        assert [request] + script[..0] == [request];
      } else {
        ghost var phase;
        phase, used := ReceiveFile(b, script);
        last, output := View(phase, b), b.output;
        RunServerAppend(INITIAL_SERVER, [request], script[..used]);
      }
    }
  }

  /** The first PDU as an input of the server: the rest of the buffer is stale. */
  function Request(firstPDU: Octets, firstLen: nat, opens: bool): ServerInput
    requires firstLen <= |firstPDU|
  {
    ServerInput.Packet(firstPDU[..firstLen], firstPDU[firstLen..], opens)
  }

  /** What `runServer` has checked before it forks, and a positive window size: for another one
      the source would divide by zero. */
  predicate IsFirstRequest(i: ServerInput) {
    && i.Packet? && Usable(i.p) && Flag(i.p) == FLAG_FILENAME
    && var info := ParseFilename(i.p + i.stale, |i.p|);
       info.Some? ==> info.value.windowSize > 0
  }

  lemma OneInput(i: ServerInput)
    requires IsFirstRequest(i)
    ensures RunServer(INITIAL_SERVER, [i]) == ListenStep(INITIAL_SERVER, i)
  {
    hide ListenStep, Usable;
    assert [i][..0] == [];
    assert RunServer(INITIAL_SERVER, []) == ServerResult(INITIAL_SERVER, []);
    assert ServerStep(INITIAL_SERVER, i) == ListenStep(INITIAL_SERVER, i);
  }

  lemma GaveUp(i: ServerInput)
    requires IsFirstRequest(i) && ListenStep(INITIAL_SERVER, i).next.phase != RECEIVING
    ensures ListenStep(INITIAL_SERVER, i).next.phase == FINISHED
    ensures ListenStep(INITIAL_SERVER, i).next.recv == EMPTY
  {
    hide EncodePdu, ParseFilename, Usable;
  }
}

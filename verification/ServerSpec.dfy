/** The server's side of one transfer, server.c: the filename request, the receive loop and
    the end of file loop. */
module ServerSpec {
  import opened Bytes
  import opened Checksum
  import opened Pdu
  import opened ReceiverSpec
  import opened Receiver
  import opened SenderSpec

  datatype Phase = LISTENING | RECEIVING | EOF_LOOP(tries: nat) | FINISHED

  datatype Server = Server(
    phase: Phase,
    windowSize: int,
    recv: RecvView,
    controlSeqNum: u32,
    ackSeqNum: u32)

  const INITIAL_SERVER := Server(LISTENING, 0, EMPTY, 0, 0)

  /** A packet arrives (`stale` is what the receive buffer holds behind it, `opens` says whether
      the output file could be opened), or the poll times out. */
  datatype ServerInput = Packet(p: Octets, stale: Octets, opens: bool) | Timeout

  /** A usable data packet. */
  predicate IsData(i: ServerInput) {
    i.Packet? && Usable(i.p) && Flag(i.p) == FLAG_DATA
  }

  datatype ServerResult = ServerResult(next: Server, out: seq<Octets>)

  /** `sendServerControlPacket`. */
  function SendServerControl(s: Server, phase: Phase, flag: byte, payload: Octets): ServerResult {
    ServerResult(s.(phase := phase, controlSeqNum := Increment(s.controlSeqNum)),
                 [EncodePdu(Little, s.controlSeqNum, flag, payload)])
  }

  /** What one request gets from `runServer` and `processClient`, up to the receive loop. This is
      a single child: the parent, which forks another for every further request, is in Forking. */
  function ListenStep(s: Server, i: ServerInput): ServerResult {
    if i.Timeout? || !Usable(i.p) || Flag(i.p) != FLAG_FILENAME then ServerResult(s, [])
    else
      var info := ParseFilename(i.p + i.stale, |i.p|);
      if info.None? then ServerResult(s.(phase := FINISHED), [])
      else if !i.opens then SendServerControl(s, FINISHED, FLAG_FILENAME_RESPONSE, [1])
      else SendServerControl(s.(windowSize := info.value.windowSize), RECEIVING, FLAG_FILENAME_RESPONSE, [0])
  }

  function ReplyBytes(ackSeqNum: u32, c: seq<Control>): (out: seq<Octets>)
    requires |c| <= 1
    ensures |out| == |c|
  {
    if c == [] then [] else [ControlBytes(ackSeqNum, c[0])]
  }

  /** `bufferProcessPDU` on a data packet. */
  function DataStep(s: Server, p: Octets): ServerResult
    requires |p| >= HEADER_LEN
  {
    var c := Reply(s.recv, SequenceNum(p), Payload(p));
    ServerResult(s.(recv := Receive(s.recv, SequenceNum(p), Payload(p)),
                    ackSeqNum := if c == [] then s.ackSeqNum else Increment(s.ackSeqNum)),
                 ReplyBytes(s.ackSeqNum, c))
  }

  /** One turn of the outer loop of `receiveFile`. */
  function ReceiveStep(s: Server, i: ServerInput): ServerResult {
    if i.Timeout? then ServerResult(s.(phase := FINISHED), [])
    else if !Usable(i.p) then ServerResult(s, [])
    else if Flag(i.p) == FLAG_DATA then DataStep(s, i.p)
    else if Flag(i.p) == FLAG_EOF then SendServerControl(s, EOF_LOOP(0), FLAG_EOF_ACK, [])
    else ServerResult(s, [])
  }

  /** One turn of the inner loop of `receiveFile`. */
  function EofLoopStep(s: Server, i: ServerInput): ServerResult
    requires s.phase.EOF_LOOP?
  {
    if i.Packet? && Usable(i.p) && Flag(i.p) == FLAG_FINAL_ACK then ServerResult(s.(phase := FINISHED), [])
    else
      var tries := s.phase.tries + 1;
      SendServerControl(s, if tries < MAX_TRIES then EOF_LOOP(tries) else FINISHED, FLAG_EOF_ACK, [])
  }

  function ServerStep(s: Server, i: ServerInput): (r: ServerResult)
    ensures |r.out| <= 1
  {
    match s.phase
    case LISTENING => ListenStep(s, i)
    case RECEIVING => ReceiveStep(s, i)
    case EOF_LOOP(_) => EofLoopStep(s, i)
    case FINISHED => ServerResult(s, [])
  }

  function RunServer(s: Server, inputs: seq<ServerInput>): ServerResult
    decreases inputs
  {
    if inputs == [] then ServerResult(s, [])
    else
      var before := RunServer(s, inputs[..|inputs| - 1]);
      var last := ServerStep(before.next, inputs[|inputs| - 1]);
      ServerResult(last.next, before.out + last.out)
  }

  lemma RunServerNext(s: Server, inputs: seq<ServerInput>, i: ServerInput)
    ensures var before := RunServer(s, inputs);
            var last := ServerStep(before.next, i);
            RunServer(s, inputs + [i]) == ServerResult(last.next, before.out + last.out)
  {
    assert (inputs + [i])[..|inputs|] == inputs;
  }

  lemma {:induction false} RunServerAppend(s: Server, a: seq<ServerInput>, b: seq<ServerInput>)
    ensures var first := RunServer(s, a);
            var second := RunServer(first.next, b);
            RunServer(s, a + b) == ServerResult(second.next, first.out + second.out)
    decreases b
  {
    hide ServerStep;
    if b == [] {
      assert a + b == a;
    } else {
      var front := b[..|b| - 1];
      RunServerAppend(s, a, front);
      assert (a + b)[..|a + b| - 1] == a + front;
    }
  }

  /** The only thing that changes what the server has received is a data packet in the
      receive loop. */
  lemma HostReceives(s: Server, i: ServerInput)
    ensures ServerStep(s, i).next.recv ==
            if s.phase == RECEIVING && IsData(i) then Receive(s.recv, SequenceNum(i.p), Payload(i.p)) else s.recv
  {
    hide EncodePdu, ChecksumOk, Receive, Reply;
  }

  // ---------------------------------------------------------------- the end of file loop

  function TurnsLeft(s: Server): int {
    if s.phase.EOF_LOOP? then MAX_TRIES - s.phase.tries else 0
  }

  lemma EofLoopTurn(s: Server, i: ServerInput)
    requires (s.phase.EOF_LOOP? && s.phase.tries < MAX_TRIES) || s.phase == FINISHED
    ensures var r := ServerStep(s, i);
            && (r.next.phase == FINISHED || (r.next.phase.EOF_LOOP? && r.next.phase.tries < MAX_TRIES))
            && (s.phase == FINISHED ==> r == ServerResult(s, []))
            && (s.phase != FINISHED ==> TurnsLeft(r.next) < TurnsLeft(s))
            && |r.out| + TurnsLeft(r.next) <= TurnsLeft(s)
            && r.next.recv == s.recv
  {
  }

  /** Once the server has seen EOF it returns after at most ten more turns, whatever arrives,
      and sends at most ten more EOF_ACKs: eleven with the first. The file is not touched. */
  lemma {:induction false} EofLoopEnds(s: Server, inputs: seq<ServerInput>)
    requires s.phase == EOF_LOOP(0)
    ensures var r := RunServer(s, inputs);
            && (r.next.phase == FINISHED || (r.next.phase.EOF_LOOP? && r.next.phase.tries < MAX_TRIES))
            && (r.next.phase != FINISHED ==> TurnsLeft(r.next) + |inputs| <= MAX_TRIES)
            && |r.out| + TurnsLeft(r.next) <= MAX_TRIES
            && r.next.recv == s.recv
    ensures |inputs| >= MAX_TRIES ==> RunServer(s, inputs).next.phase == FINISHED
    decreases inputs
  {
    if inputs != [] {
      var front := inputs[..|inputs| - 1];
      EofLoopEnds(s, front);
      EofLoopTurn(RunServer(s, front).next, inputs[|inputs| - 1]);
    }
  }
}

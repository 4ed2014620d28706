/** One client, one receiving server process, and a network that loses, corrupts, duplicates,
    reorders and delays. Forking puts such a pair into a host with any number of children. */
module Transfer {
  import opened Bytes
  import opened Checksum
  import opened Pdu
  import opened Channel
  import opened SenderWindow
  import opened ReceiverSpec
  import opened Receiver
  import opened SenderSpec
  import opened ServerSpec

  /** Each direction keeps everything that was ever put on the wire; a delivery takes nothing
      out, so a packet may arrive at any later time, any number of times, or never. */
  datatype Sys = Sys(snd: Sender, srv: Server, toServer: set<Octets>, toClient: set<Octets>)

  function InitialSys(c: Config): Sys {
    Sys(InitialSender(c), INITIAL_SERVER, {}, {})
  }

  /** One end takes a step; the channel decides the fate of the packet it sends, if any. */
  datatype Event = Client(input: SenderSpec.Input, fate: Fate) | Host(request: ServerInput, fate: Fate)

  predicate CanCarry(out: seq<Octets>, fate: Fate) {
    |out| <= 1 && (out != [] ==> Possible(fate, out[0]))
  }

  function Transmit(net: set<Octets>, out: seq<Octets>, fate: Fate): set<Octets>
    requires CanCarry(out, fate)
  {
    if out == [] then net
    else
      match Arrives(fate, out[0])
      case None => net
      case Some(q) => net + {q}
  }

  predicate Enabled(c: Config, s: Sys, e: Event) {
    match e
    case Client(i, fate) => (i.Arrived? ==> i.p in s.toClient) && CanCarry(SenderStep(c, s.snd, i).out, fate)
    case Host(i, fate) => (i.Packet? ==> i.p in s.toServer) && CanCarry(ServerStep(s.srv, i).out, fate)
  }

  function Next(c: Config, s: Sys, e: Event): Sys
    requires Enabled(c, s, e)
  {
    match e
    case Client(i, fate) =>
      var r := SenderStep(c, s.snd, i);
      s.(snd := r.next, toServer := Transmit(s.toServer, r.out, fate))
    case Host(i, fate) =>
      var r := ServerStep(s.srv, i);
      s.(srv := r.next, toClient := Transmit(s.toClient, r.out, fate))
  }

  /** The state after a list of events, if each could happen when its turn came. */
  function Play(c: Config, events: seq<Event>): Option<Sys>
    decreases events
  {
    if events == [] then Some(InitialSys(c))
    else
      match Play(c, events[..|events| - 1])
      case None => None
      case Some(s) =>
        var e := events[|events| - 1];
        if Enabled(c, s, e) then Some(Next(c, s, e)) else None
  }

  // ---------------------------------------------------------------- the invariant

  /** Every packet of the file has been sent and acknowledged. */
  predicate AllAcknowledged(c: Config, s: Sender) {
    s.eofReached && s.win.lower == s.win.current == |c.chunks|
  }

  predicate PastHandshake(s: Sender) {
    s.win.current > 0 || s.eofReached || (s.mode != SEND_FILENAME && s.mode != WAIT_FILENAME_ACK && s.mode != DONE)
  }

  /** The server accepted the request and knows the window size. */
  predicate Agreed(c: Config, s: Server) {
    s.phase != LISTENING && s.windowSize == c.windowSize
  }

  /** The receiver has only packets that were sent, and no fewer than were acknowledged. */
  ghost predicate ReceiverOk(c: Config, snd: Sender, srv: Server) {
    && srv.recv.Ok()
    && snd.win.current <= |c.chunks|
    && (forall k :: k in srv.recv.got ==> k < snd.win.current && srv.recv.got[k] == c.chunks[k])
    && snd.win.lower <= srv.recv.expected
    && (srv.phase == LISTENING ==> srv.recv == EMPTY)
    && (srv.phase.EOF_LOOP? ==> AllAcknowledged(c, snd))
    && (srv.phase == RECEIVING || srv.phase.EOF_LOOP? ==> srv.windowSize == c.windowSize)
    && (PastHandshake(snd) ==> Agreed(c, srv))
  }

  /** A usable packet on the way to the server is one that the client sent. */
  ghost predicate FromClient(c: Config, snd: Sender, p: Octets) {
    Usable(p) ==>
      var flag := Flag(p);
      || (flag == FLAG_FILENAME && Payload(p) == FilenamePayload(c.windowSize, c.bufferSize, c.toFile))
      || (flag == FLAG_DATA && SequenceNum(p) < snd.win.current <= |c.chunks| && Payload(p) == c.chunks[SequenceNum(p)])
      || ((flag == FLAG_EOF || flag == FLAG_FINAL_ACK) && AllAcknowledged(c, snd))
  }

  /** A usable packet on the way to the client is one that the server sent. */
  ghost predicate FromServer(c: Config, snd: Sender, srv: Server, p: Octets) {
    Usable(p) ==>
      var flag := Flag(p);
      || (flag == FLAG_FILENAME_RESPONSE && |p| == HEADER_LEN + 1 && (p[HEADER_LEN] == 0 ==> Agreed(c, srv)))
      || ((flag == FLAG_RR || flag == FLAG_SREJ) && |p| == HEADER_LEN + 4 && ControlNumber(p) <= srv.recv.expected)
      || (flag == FLAG_EOF_ACK && AllAcknowledged(c, snd))
  }

  ghost predicate Inv(c: Config, s: Sys) {
    && SenderOk(c, s.snd)
    && ReceiverOk(c, s.snd, s.srv)
    && (forall p :: p in s.toServer ==> FromClient(c, s.snd, p))
    && (forall p :: p in s.toClient ==> FromServer(c, s.snd, s.srv, p))
  }

  /** Neither end ever takes anything back. */
  ghost predicate NotBefore(c: Config, snd: Sender, srv: Server, snd': Sender, srv': Server) {
    && snd.win.current <= snd'.win.current <= |c.chunks|
    && srv.recv.expected <= srv'.recv.expected
    && (AllAcknowledged(c, snd) ==> AllAcknowledged(c, snd'))
    && (Agreed(c, srv) ==> Agreed(c, srv'))
  }

  lemma GenuineForever(c: Config, s: Sys, snd': Sender, srv': Server)
    requires Inv(c, s) && NotBefore(c, s.snd, s.srv, snd', srv')
    ensures forall p :: p in s.toServer ==> FromClient(c, snd', p)
    ensures forall p :: p in s.toClient ==> FromServer(c, snd', srv', p)
  {
    hide Usable, FilenamePayload, AllAcknowledged, Agreed, SenderOk, ReceiverOk;
    forall p | p in s.toServer ensures FromClient(c, snd', p) {
      assert FromClient(c, s.snd, p);
    }
    forall p | p in s.toClient ensures FromServer(c, snd', srv', p) {
      assert FromServer(c, s.snd, s.srv, p);
    }
  }

  // ---------------------------------------------------------------- what is sent is genuine

  /** `p` is what createPDU builds from its own fields. */
  predicate Encoded(p: Octets) {
    |p| >= HEADER_LEN && p == EncodePdu(Little, SequenceNum(p), Flag(p), Payload(p))
  }

  lemma EncodedPdu(seqNum: u32, flag: byte, payload: Octets)
    ensures var p := EncodePdu(Little, seqNum, flag, payload);
            Encoded(p) && Usable(p) && Flag(p) == flag && SequenceNum(p) == seqNum && Payload(p) == payload
  {
    PduRoundTrip(Little, seqNum, flag, payload);
    EncodedIsValid(Little, seqNum, flag, payload);
  }

  /** Whatever the channel does to a genuine PDU, a usable arrival is that PDU. */
  lemma OnlyOriginalUsable(p: Octets, fate: Fate)
    requires Encoded(p) && Possible(fate, p)
    ensures var q := Arrives(fate, p);
            q.Some? && Usable(q.value) ==> q.value == p
  {
    OnlyGenuineArrives(SequenceNum(p), Flag(p), Payload(p), fate);
  }

  /** What the client sends in a step, seen from the state after the step. */
  ghost predicate GoodClientOut(c: Config, snd: Sender, out: seq<Octets>) {
    |out| <= 1 && (out != [] ==> Encoded(out[0]) && FromClient(c, snd, out[0]))
  }

  ghost predicate GoodServerOut(c: Config, snd: Sender, srv: Server, out: seq<Octets>) {
    |out| <= 1 && (out != [] ==> Encoded(out[0]) && FromServer(c, snd, srv, out[0]))
  }

  lemma DataPduIsGenuine(c: Config, snd: Sender, k: nat)
    requires c.Ok() && k < snd.win.current <= |c.chunks|
    ensures var p := DataPdu(k, c.chunks[k]);
            Encoded(p) && FromClient(c, snd, p) && SequenceNum(p) == k && Payload(p) == c.chunks[k]
  {
    EncodedPdu(ToU32(k), FLAG_DATA, c.chunks[k]);
  }

  // ---------------------------------------------------------------- steps of the client

  ghost predicate ClientMayTake(s: Sys, i: SenderSpec.Input) {
    i.Arrived? ==> i.p in s.toClient
  }

  lemma ClientControlOut(c: Config, s: Sys, i: SenderSpec.Input)
    requires c.Ok() && Inv(c, s) && ClientMayTake(s, i)
    requires s.snd.mode != SEND_DATA && s.snd.mode != PROCESS_ACKS && s.snd.mode != WINDOW_CLOSED
    ensures var r := SenderStep(c, s.snd, i);
            GoodClientOut(c, r.next, r.out)
  {
    var n := s.snd.controlSeqNum;
    EncodedPdu(n, FLAG_FILENAME, FilenamePayload(c.windowSize, c.bufferSize, c.toFile));
    EncodedPdu(n, FLAG_EOF, []);
    EncodedPdu(n, FLAG_FINAL_ACK, []);
    if i.Arrived? {
      assert FromServer(c, s.snd, s.srv, i.p);
    }
  }

  lemma ClientDataOut(c: Config, s: Sys, i: SenderSpec.Input)
    requires c.Ok() && Inv(c, s)
    requires s.snd.mode == SEND_DATA || s.snd.mode == PROCESS_ACKS || s.snd.mode == WINDOW_CLOSED
    ensures var r := SenderStep(c, s.snd, i);
            GoodClientOut(c, r.next, r.out)
  {
    hide EncodePdu, Encoded, FromClient, ReceiverOk;
    var r := SenderStep(c, s.snd, i);
    if r.out != [] {
      var k := if s.snd.mode == SEND_DATA then s.snd.win.current
               else if s.snd.mode == PROCESS_ACKS then ControlNumber(i.p)
               else s.snd.win.lower;
      assert r.out == [DataPdu(k, c.chunks[k])];
      DataPduIsGenuine(c, r.next, k);
    }
  }

  lemma ClientAckKeeps(c: Config, s: Sys, i: SenderSpec.Input)
    requires c.Ok() && Inv(c, s) && ClientMayTake(s, i) && s.snd.mode == PROCESS_ACKS
    ensures var snd' := SenderStep(c, s.snd, i).next;
            ReceiverOk(c, snd', s.srv) && NotBefore(c, s.snd, s.srv, snd', s.srv)
  {
    hide EncodePdu, FilenamePayload, ChecksumOk;
    if i.Arrived? {
      assert FromServer(c, s.snd, s.srv, i.p);
      if IsControl(i.p, FLAG_RR) {
        AckRRKeepsOk(s.snd.win, ControlNumber(i.p));
      }
    }
  }

  lemma ClientStateKeeps(c: Config, s: Sys, i: SenderSpec.Input)
    requires c.Ok() && Inv(c, s) && ClientMayTake(s, i)
    ensures var snd' := SenderStep(c, s.snd, i).next;
            && SenderOk(c, snd') && ReceiverOk(c, snd', s.srv)
            && NotBefore(c, s.snd, s.srv, snd', s.srv)
  {
    hide EncodePdu, FilenamePayload, Usable, ProcessAcksStep;
    StepKeepsSenderOk(c, s.snd, i);
    if s.snd.mode == PROCESS_ACKS {
      ClientAckKeeps(c, s, i);
    } else if i.Arrived? {
      assert FromServer(c, s.snd, s.srv, i.p);
    }
  }

  lemma ClientStepKeeps(c: Config, s: Sys, i: SenderSpec.Input)
    requires c.Ok() && Inv(c, s) && ClientMayTake(s, i)
    ensures var r := SenderStep(c, s.snd, i);
            && SenderOk(c, r.next) && ReceiverOk(c, r.next, s.srv)
            && NotBefore(c, s.snd, s.srv, r.next, s.srv)
            && GoodClientOut(c, r.next, r.out)
  {
    hide SenderStep, Inv, NotBefore, GoodClientOut;
    ClientStateKeeps(c, s, i);
    if s.snd.mode == SEND_DATA || s.snd.mode == PROCESS_ACKS || s.snd.mode == WINDOW_CLOSED {
      ClientDataOut(c, s, i);
    } else {
      ClientControlOut(c, s, i);
    }
  }

  // ---------------------------------------------------------------- steps of the server

  ghost predicate ServerMayTake(s: Sys, i: ServerInput) {
    i.Packet? ==> i.p in s.toServer
  }

  /** Every data packet that can be delivered, however late, is below the upper edge of the
      receiver's window and below the sentinel: what Buffer.Accepts asks for. */
  lemma DeliverableIsInWindow(c: Config, s: Sys, p: Octets)
    requires c.Ok() && Inv(c, s) && p in s.toServer && Usable(p) && Flag(p) == FLAG_DATA
    ensures SequenceNum(p) < s.srv.recv.expected + c.windowSize
    ensures SequenceNum(p) < UINT32_MAX - 1
    ensures SequenceNum(p) < |c.chunks| && Payload(p) == c.chunks[SequenceNum(p)]
  {
    assert FromClient(c, s.snd, p);
  }

  lemma ServerDataStepKeeps(c: Config, s: Sys, p: Octets)
    requires c.Ok() && Inv(c, s) && p in s.toServer && Usable(p) && Flag(p) == FLAG_DATA
    requires s.srv.phase == RECEIVING
    ensures var r := DataStep(s.srv, p);
            && ReceiverOk(c, s.snd, r.next)
            && NotBefore(c, s.snd, s.srv, s.snd, r.next)
            && GoodServerOut(c, s.snd, r.next, r.out)
  {
    hide EncodePdu, SenderOk, FilenamePayload;
    assert FromClient(c, s.snd, p);
    var v, k, d := s.srv.recv, SequenceNum(p), Payload(p);
    ReceiveKeepsOk(v, k, d);
    OneReply(v, k, d);
    var r := DataStep(s.srv, p);
    if r.out != [] {
      var reply := Reply(v, k, d)[0];
      ExpectedWasSent(c, s.snd, r.next);
      ControlIsGenuine(c, s.snd, r.next, s.srv.ackSeqNum, reply);
    }
  }

  lemma ExpectedWasSent(c: Config, snd: Sender, srv: Server)
    requires ReceiverOk(c, snd, srv)
    ensures srv.recv.expected <= snd.win.current
  {
    if srv.recv.expected > 0 {
      assert srv.recv.expected - 1 in srv.recv.got;
    }
  }

  lemma ControlIsGenuine(c: Config, snd: Sender, srv: Server, ackSeqNum: u32, reply: Control)
    requires reply.n <= srv.recv.expected && reply.n <= UINT32_MAX
    ensures var p := ControlBytes(ackSeqNum, reply);
            Encoded(p) && FromServer(c, snd, srv, p)
  {
    var flag := if reply.RR? then FLAG_RR else FLAG_SREJ;
    ControlRoundTrip(ackSeqNum, flag, reply.n);
    EncodedPdu(ackSeqNum, flag, Be32(reply.n));
  }

  lemma ServerListenStepKeeps(c: Config, s: Sys, i: ServerInput)
    requires c.Ok() && Inv(c, s) && ServerMayTake(s, i) && s.srv.phase == LISTENING
    ensures var r := ListenStep(s.srv, i);
            && ReceiverOk(c, s.snd, r.next)
            && NotBefore(c, s.snd, s.srv, s.snd, r.next)
            && GoodServerOut(c, s.snd, r.next, r.out)
  {
    hide EncodePdu, FilenamePayload, ParseFilename, SenderOk;
    if i.Packet? {
      assert FromClient(c, s.snd, i.p);
      if Usable(i.p) && Flag(i.p) == FLAG_FILENAME {
        FilenameRoundTrip(i.p, c.windowSize, c.bufferSize, c.toFile, i.stale);
      }
    }
    EncodedPdu(s.srv.controlSeqNum, FLAG_FILENAME_RESPONSE, [0]);
    EncodedPdu(s.srv.controlSeqNum, FLAG_FILENAME_RESPONSE, [1]);
  }

  lemma ServerStepKeeps(c: Config, s: Sys, i: ServerInput)
    requires c.Ok() && Inv(c, s) && ServerMayTake(s, i)
    ensures var r := ServerStep(s.srv, i);
            && ReceiverOk(c, s.snd, r.next)
            && NotBefore(c, s.snd, s.srv, s.snd, r.next)
            && GoodServerOut(c, s.snd, r.next, r.out)
  {
    hide EncodePdu, FilenamePayload, ListenStep, DataStep, SenderOk;
    if s.srv.phase == LISTENING {
      ServerListenStepKeeps(c, s, i);
    } else if i.Packet? {
      assert FromClient(c, s.snd, i.p);
      if s.srv.phase == RECEIVING && Usable(i.p) && Flag(i.p) == FLAG_DATA {
        ServerDataStepKeeps(c, s, i.p);
      }
    }
    EncodedPdu(s.srv.controlSeqNum, FLAG_EOF_ACK, []);
  }

  // ---------------------------------------------------------------- every reachable state

  lemma InitialInv(c: Config)
    requires c.Ok()
    ensures Inv(c, InitialSys(c))
  {
    InitialSenderOk(c);
  }

  lemma NextKeepsInv(c: Config, s: Sys, e: Event)
    requires c.Ok() && Inv(c, s) && Enabled(c, s, e)
    ensures Inv(c, Next(c, s, e))
    ensures var s' := Next(c, s, e);
            NotBefore(c, s.snd, s.srv, s'.snd, s'.srv)
  {
    hide SenderStep, ServerStep, SenderOk, ReceiverOk, FromClient, FromServer, NotBefore, Encoded, Usable;
    match e
    case Client(i, fate) =>
      var r := SenderStep(c, s.snd, i);
      ClientStepKeeps(c, s, i);
      GenuineForever(c, s, r.next, s.srv);
      if r.out != [] {
        OnlyOriginalUsable(r.out[0], fate);
        UnusableIsHarmless(c, r.next, s.srv);
      }
    case Host(i, fate) =>
      var r := ServerStep(s.srv, i);
      ServerStepKeeps(c, s, i);
      GenuineForever(c, s, s.snd, r.next);
      if r.out != [] {
        OnlyOriginalUsable(r.out[0], fate);
        UnusableIsHarmless(c, s.snd, r.next);
      }
  }

  lemma UnusableIsHarmless(c: Config, snd: Sender, srv: Server)
    ensures forall p :: !Usable(p) ==> FromClient(c, snd, p) && FromServer(c, snd, srv, p)
  {
  }

  /** The invariant holds in every state of every run. */
  lemma {:induction false} PlayKeepsInv(c: Config, events: seq<Event>)
    requires c.Ok() && Play(c, events).Some?
    ensures Inv(c, Play(c, events).value)
    decreases events
  {
    if events == [] {
      InitialInv(c);
    } else {
      var front := events[..|events| - 1];
      PlayKeepsInv(c, front);
      NextKeepsInv(c, Play(c, front).value, events[|events| - 1]);
    }
  }
}

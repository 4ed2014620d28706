/** What a transfer can still recover from: when the network has taken too much for the file
    ever to be completed, however well it delivers afterwards. */
module Recovery {
  import opened Bytes
  import opened Checksum
  import opened Pdu
  import opened Channel
  import opened ReceiverSpec
  import opened SenderSpec
  import opened SenderProperties
  import opened ServerSpec
  import opened Transfer

  // ---------------------------------------------------------------- what is on the wire

  predicate IsNumber(p: Octets, k: nat) {
    Usable(p) && Flag(p) == FLAG_DATA && SequenceNum(p) == k
  }

  /** Data packet `k` is on its way to the server, or has been: it may arrive (again). */
  predicate DataOnWire(s: Sys, k: nat) {
    exists p | p in s.toServer :: IsNumber(p, k)
  }

  predicate IsAnswer(p: Octets, flag: byte, n: nat) {
    IsControl(p, flag) && ControlNumber(p) == n
  }

  predicate AnswerOnWire(s: Sys, flag: byte, n: nat) {
    exists p | p in s.toClient :: IsAnswer(p, flag, n)
  }

  predicate IsRequest(p: Octets) {
    Usable(p) && Flag(p) == FLAG_FILENAME
  }

  /** A filename response that the client takes for consent. */
  predicate IsConsent(p: Octets) {
    Usable(p) && Flag(p) == FLAG_FILENAME_RESPONSE && !(|p| > HEADER_LEN && p[HEADER_LEN] != 0)
  }

  predicate RequestOnWire(s: Sys) {
    exists p | p in s.toServer :: IsRequest(p)
  }

  predicate ConsentOnWire(s: Sys) {
    exists p | p in s.toClient :: IsConsent(p)
  }

  /** What has been received was on the wire, an SREJ was provoked by a later packet, and
      nobody gets past the handshake without a packet from the server. */
  ghost predicate Traces(s: Sys) {
    && (forall k :: k in s.srv.recv.got ==> DataOnWire(s, k))
    && (forall p :: p in s.toClient && IsControl(p, FLAG_SREJ) ==> exists k :: k > ControlNumber(p) && DataOnWire(s, k))
    && (PastHandshake(s.snd) ==> s.toClient != {})
  }

  ghost predicate Good(c: Config, s: Sys) {
    Inv(c, s) && Traces(s)
  }

  // ---------------------------------------------------------------- what a step adds

  /** The client's step puts data packet `k` on the wire. */
  predicate Sends(c: Config, s: Sender, i: SenderSpec.Input, k: nat) {
    match s.mode
    case SEND_DATA => k == s.win.current && SenderStep(c, s, i).next.win.current == k + 1
    case PROCESS_ACKS => i.Arrived? && IsAnswer(i.p, FLAG_SREJ, k) && s.win.lower <= k < s.win.current
    case WINDOW_CLOSED => !i.Arrived? && k == s.win.lower
    case _ => false
  }

  lemma ClientOut(c: Config, s: Sys, i: SenderSpec.Input, k: nat)
    requires c.Ok() && Inv(c, s)
    ensures var out := SenderStep(c, s.snd, i).out;
            && (out != [] && IsNumber(out[0], k) ==> Sends(c, s.snd, i, k))
            && (Sends(c, s.snd, i, k) ==> |out| == 1 && IsNumber(out[0], k))
  {
    hide EncodePdu, FilenamePayload, ChecksumOk;
    DataSent(c, s.snd, i);
    var n := s.snd.controlSeqNum;
    EncodedPdu(n, FLAG_FILENAME, FilenamePayload(c.windowSize, c.bufferSize, c.toFile));
    EncodedPdu(n, FLAG_EOF, []);
    EncodedPdu(n, FLAG_FINAL_ACK, []);
    var lower, current := s.snd.win.lower, s.snd.win.current;
    EncodedPdu(ToU32(current), FLAG_DATA, if current < |c.chunks| then c.chunks[current] else []);
    EncodedPdu(ToU32(lower), FLAG_DATA, if lower < |c.chunks| then c.chunks[lower] else []);
    if i.Arrived? && IsControl(i.p, FLAG_SREJ) && ControlNumber(i.p) < |c.chunks| {
      EncodedPdu(ToU32(ControlNumber(i.p)), FLAG_DATA, c.chunks[ControlNumber(i.p)]);
    }
  }

  /** The server's step answers a data packet with a control message. */
  predicate Answers(s: Server, i: ServerInput, flag: byte, n: nat) {
    && s.phase == RECEIVING && IsData(i)
    && var r := Reply(s.recv, SequenceNum(i.p), Payload(i.p));
       r != [] && r[0].n == n && flag == if r[0].RR? then FLAG_RR else FLAG_SREJ
  }

  lemma HostOut(c: Config, s: Sys, i: ServerInput, flag: byte, n: nat)
    requires c.Ok() && Inv(c, s) && ServerMayTake(s, i) && (flag == FLAG_RR || flag == FLAG_SREJ)
    ensures var out := ServerStep(s.srv, i).out;
            && (out != [] && IsAnswer(out[0], flag, n) ==> Answers(s.srv, i, flag, n))
            && (Answers(s.srv, i, flag, n) ==> |out| == 1 && IsAnswer(out[0], flag, n))
  {
    hide EncodePdu, FilenamePayload, ChecksumOk, ParseFilename, Receive, Reply;
    EncodedPdu(s.srv.controlSeqNum, FLAG_FILENAME_RESPONSE, [0]);
    EncodedPdu(s.srv.controlSeqNum, FLAG_FILENAME_RESPONSE, [1]);
    EncodedPdu(s.srv.controlSeqNum, FLAG_EOF_ACK, []);
    if s.srv.phase == RECEIVING && IsData(i) {
      var k, d := SequenceNum(i.p), Payload(i.p);
      var r := Reply(s.srv.recv, k, d);
      if r != [] {
        OneReply(s.srv.recv, k, d);
        ServerStepKeeps(c, s, i);
        ExpectedWasSent(c, s.snd, ServerStep(s.srv, i).next);
        ControlRoundTrip(s.srv.ackSeqNum, if r[0].RR? then FLAG_RR else FLAG_SREJ, r[0].n);
      }
    }
  }

  /** After a client step: what it sent may be there, unaltered; nothing else is new. */
  lemma ClientWire(c: Config, s: Sys, i: SenderSpec.Input, fate: Fate)
    requires c.Ok() && Inv(c, s) && Enabled(c, s, Client(i, fate))
    ensures var s' := Next(c, s, Client(i, fate));
            && s'.srv == s.srv && s'.toClient == s.toClient && s.toServer <= s'.toServer
            && (forall k: nat :: DataOnWire(s, k) ==> DataOnWire(s', k))
            && (forall k: nat :: DataOnWire(s', k) ==> DataOnWire(s, k) || Sends(c, s.snd, i, k))
            && (fate.Passed? ==> forall k: nat :: Sends(c, s.snd, i, k) ==> DataOnWire(s', k))
  {
    hide SenderStep, Usable, Encoded, FromClient, SenderOk, ReceiverOk, NotBefore, Sends;
    var e := Client(i, fate);
    var s', out := Next(c, s, e), SenderStep(c, s.snd, i).out;
    ClientStepKeeps(c, s, i);
    if out != [] {
      OnlyOriginalUsable(out[0], fate);
    }
    forall k: nat ensures DataOnWire(s', k) ==> DataOnWire(s, k) || Sends(c, s.snd, i, k) {
      ClientOut(c, s, i, k);
    }
    if fate.Passed? {
      forall k: nat ensures Sends(c, s.snd, i, k) ==> DataOnWire(s', k) {
        ClientOut(c, s, i, k);
      }
    }
  }

  lemma HostWire(c: Config, s: Sys, i: ServerInput, fate: Fate)
    requires c.Ok() && Inv(c, s) && Enabled(c, s, Host(i, fate))
    ensures var s' := Next(c, s, Host(i, fate));
            && s'.snd == s.snd && s'.toServer == s.toServer && s.toClient <= s'.toClient
    ensures var s' := Next(c, s, Host(i, fate));
            forall flag, n: nat :: flag == FLAG_RR || flag == FLAG_SREJ ==>
              && (AnswerOnWire(s, flag, n) ==> AnswerOnWire(s', flag, n))
              && (AnswerOnWire(s', flag, n) ==> AnswerOnWire(s, flag, n) || Answers(s.srv, i, flag, n))
              && (fate.Passed? && Answers(s.srv, i, flag, n) ==> AnswerOnWire(s', flag, n))
  {
    hide ServerStep, Usable, Encoded, FromServer, SenderOk, ReceiverOk, NotBefore, Answers;
    var e := Host(i, fate);
    var s', out := Next(c, s, e), ServerStep(s.srv, i).out;
    ServerStepKeeps(c, s, i);
    if out != [] {
      OnlyOriginalUsable(out[0], fate);
    }
    forall flag, n: nat | flag == FLAG_RR || flag == FLAG_SREJ
      ensures (AnswerOnWire(s', flag, n) ==> AnswerOnWire(s, flag, n) || Answers(s.srv, i, flag, n))
           && (fate.Passed? && Answers(s.srv, i, flag, n) ==> AnswerOnWire(s', flag, n))
    {
      HostOut(c, s, i, flag, n);
    }
  }

  // ---------------------------------------------------------------- every reachable state leaves traces

  lemma ClientKeepsTraces(c: Config, s: Sys, i: SenderSpec.Input, fate: Fate)
    requires c.Ok() && Good(c, s) && Enabled(c, s, Client(i, fate))
    ensures Traces(Next(c, s, Client(i, fate)))
  {
    hide Usable, IsControl, EncodePdu, FilenamePayload, DataOnWire, Sends, SenderOk, ReceiverOk, Transmit;
    ClientWire(c, s, i, fate);
    var s' := Next(c, s, Client(i, fate));
    if PastHandshake(s'.snd) && !PastHandshake(s.snd) {
      assert i.Arrived?;
    }
  }

  lemma HostKeepsTraces(c: Config, s: Sys, i: ServerInput, fate: Fate)
    requires c.Ok() && Good(c, s) && Enabled(c, s, Host(i, fate))
    ensures Traces(Next(c, s, Host(i, fate)))
  {
    hide EncodePdu, FilenamePayload, ChecksumOk, SenderOk, ReceiverOk, Inv, Transmit, FirstMissing, ServerStep;
    HostWire(c, s, i, fate);
    var s' := Next(c, s, Host(i, fate));
    HostReceives(s.srv, i);
    if IsData(i) {
      assert IsNumber(i.p, SequenceNum(i.p));
    }
    forall k | k in s'.srv.recv.got ensures DataOnWire(s', k) {
      assert k in s.srv.recv.got || (IsData(i) && k == SequenceNum(i.p));
    }
    forall p | p in s'.toClient && IsControl(p, FLAG_SREJ)
      ensures exists k :: k > ControlNumber(p) && DataOnWire(s', k)
    {
      var k := SrejHasCause(c, s, i, fate, p);
      assert DataOnWire(s', k);
    }
  }

  lemma SrejHasCause(c: Config, s: Sys, i: ServerInput, fate: Fate, p: Octets) returns (k: nat)
    requires c.Ok() && Good(c, s) && Enabled(c, s, Host(i, fate))
    requires p in Next(c, s, Host(i, fate)).toClient && IsControl(p, FLAG_SREJ)
    ensures k > ControlNumber(p) && DataOnWire(s, k)
  {
    hide Usable, EncodePdu, Inv, ServerStep, Transmit, FirstMissing, DataOnWire, Answers;
    var n := ControlNumber(p);
    HostWire(c, s, i, fate);
    assert IsAnswer(p, FLAG_SREJ, n);
    assert AnswerOnWire(Next(c, s, Host(i, fate)), FLAG_SREJ, n);
    if AnswerOnWire(s, FLAG_SREJ, n) {
      var q :| q in s.toClient && IsAnswer(q, FLAG_SREJ, n);
      k :| k > n && DataOnWire(s, k);
    } else {
      InvRecvOk(c, s);
      k := LaterPacket(s.srv, i, n);
      if k !in s.srv.recv.got {
        ArrivedFromWire(s, i);
      }
    }
  }

  /** An SREJ is provoked by a packet behind the gap. */
  lemma LaterPacket(srv: Server, i: ServerInput, n: nat) returns (k: nat)
    requires srv.recv.Ok() && Answers(srv, i, FLAG_SREJ, n)
    ensures k > n && (k in srv.recv.got || (IsData(i) && k == SequenceNum(i.p)))
  {
    hide Usable, FirstMissing;
    var v, q, d := srv.recv, SequenceNum(i.p), Payload(i.p);
    OneReply(v, q, d);
    var v' := Receive(v, q, d);
    k :| k in v'.got && k > v'.expected;
  }

  lemma ArrivedFromWire(s: Sys, i: ServerInput)
    requires IsData(i) && i.p in s.toServer
    ensures DataOnWire(s, SequenceNum(i.p))
  {
    hide ChecksumOk;
    assert IsNumber(i.p, SequenceNum(i.p));
  }

  lemma InvRecvOk(c: Config, s: Sys)
    requires Inv(c, s)
    ensures s.srv.recv.Ok()
  {
  }

  lemma InitialGood(c: Config)
    requires c.Ok()
    ensures Good(c, InitialSys(c))
  {
    InitialInv(c);
  }

  lemma NextKeepsGood(c: Config, s: Sys, e: Event)
    requires c.Ok() && Good(c, s) && Enabled(c, s, e)
    ensures Good(c, Next(c, s, e))
  {
    hide Inv, Traces, Next, Enabled;
    NextKeepsInv(c, s, e);
    match e
    case Client(i, fate) => ClientKeepsTraces(c, s, i, fate);
    case Host(i, fate) => HostKeepsTraces(c, s, i, fate);
  }

  lemma {:induction false} PlayKeepsGood(c: Config, events: seq<Event>)
    requires c.Ok() && Play(c, events).Some?
    ensures Good(c, Play(c, events).value)
    decreases events
  {
    hide Good, Next, Enabled;
    if events == [] {
      InitialGood(c);
    } else {
      var front := events[..|events| - 1];
      PlayKeepsGood(c, front);
      NextKeepsGood(c, Play(c, front).value, events[|events| - 1]);
    }
  }

  // ---------------------------------------------------------------- what cannot be repaired

  predicate InHandshake(s: Sender) {
    s.mode == SEND_FILENAME || s.mode == WAIT_FILENAME_ACK
  }

  predicate InData(s: Sender) {
    s.mode == SEND_DATA || s.mode == PROCESS_ACKS || s.mode == WINDOW_CLOSED
  }

  /** The one copy of the last chunk was lost, and the window is wider than one: no timeout
      will resend it, and no later packet can provoke an SREJ for it. */
  predicate LastLost(c: Config, s: Sys) {
    && s.snd.win.current == |c.chunks| && s.srv.recv.expected < |c.chunks|
    && c.windowSize >= 2 && !DataOnWire(s, |c.chunks| - 1)
  }

  /** The expected packet was lost and so was the only SREJ that will be sent for it, and the
      rest of the file fits in the window behind it, so that no timeout will resend it. */
  predicate RejectLost(c: Config, s: Sys) {
    var e := s.srv.recv.expected;
    && e < s.snd.win.current && |c.chunks| < e + c.windowSize && s.srv.recv.HasGap()
    && !DataOnWire(s, e) && !AnswerOnWire(s, FLAG_SREJ, e)
  }

  /** The client can still be told that the server has everything, or make it so. Past the
      handshake that is exact. In the handshake it only says that this child can be reached: when
      it cannot, another one still may (Serving.CanComplete). */
  predicate Completable(c: Config, s: Sys) {
    || AllAcknowledged(c, s.snd)
    || match s.snd.mode
       case SEND_FILENAME => s.srv.phase == LISTENING || Consented(c, s)
       case WAIT_FILENAME_ACK =>
         || (s.srv.phase == LISTENING && (s.snd.filenameTries < MAX_TRIES - 1 || RequestOnWire(s)))
         || Consented(c, s)
       case DONE => false
       case _ =>
         || s.snd.win.lower == |c.chunks|
         || AnswerOnWire(s, FLAG_RR, |c.chunks|)
         || (s.srv.phase == RECEIVING && !LastLost(c, s) && !RejectLost(c, s))
  }

  /** The server said yes, and is still there unless the file is empty. */
  predicate Consented(c: Config, s: Sys) {
    ConsentOnWire(s) && (s.srv.phase == RECEIVING || |c.chunks| == 0)
  }

  // ---------------------------------------------------------------- once beyond repair, always

  lemma WhatPhasesMean(c: Config, s: Sys)
    requires Good(c, s)
    ensures s.snd.mode == SEND_EOF || s.snd.mode == WAIT_EOF_ACK ==> AllAcknowledged(c, s.snd)
    ensures s.srv.phase.EOF_LOOP? ==> AllAcknowledged(c, s.snd)
    ensures InData(s.snd) ==> s.srv.phase != LISTENING
    ensures AnswerOnWire(s, FLAG_RR, |c.chunks|) ==> s.srv.recv.expected == |c.chunks|
    ensures s.snd.win.lower <= s.srv.recv.expected <= s.snd.win.current <= |c.chunks|
  {
    hide Usable, EncodePdu, FilenamePayload;
    ExpectedWasSent(c, s.snd, s.srv);
    if AnswerOnWire(s, FLAG_RR, |c.chunks|) {
      var p :| p in s.toClient && IsAnswer(p, FLAG_RR, |c.chunks|);
      assert FromServer(c, s.snd, s.srv, p);
    }
  }

  /** An RR that arrives is on the wire; so is an SREJ, and it has a cause. */
  lemma ArrivedAnswer(c: Config, s: Sys, p: Octets)
    requires Good(c, s) && p in s.toClient
    ensures IsControl(p, FLAG_RR) ==> AnswerOnWire(s, FLAG_RR, ControlNumber(p)) && ControlNumber(p) <= s.srv.recv.expected
    ensures IsControl(p, FLAG_SREJ) ==> AnswerOnWire(s, FLAG_SREJ, ControlNumber(p))
    ensures IsControl(p, FLAG_SREJ) ==> exists k :: k > ControlNumber(p) && DataOnWire(s, k)
    ensures IsConsent(p) ==> ConsentOnWire(s) && Agreed(c, s.srv)
  {
    hide ChecksumOk, EncodePdu, FilenamePayload;
    assert FromServer(c, s.snd, s.srv, p);
    if IsControl(p, FLAG_RR) {
      assert IsAnswer(p, FLAG_RR, ControlNumber(p));
    }
    if IsControl(p, FLAG_SREJ) {
      assert IsAnswer(p, FLAG_SREJ, ControlNumber(p));
    }
  }

  lemma OnWireWasSent(c: Config, s: Sys, k: nat)
    requires Good(c, s) && DataOnWire(s, k)
    ensures k < s.snd.win.current
  {
    hide ChecksumOk, EncodePdu, FilenamePayload;
    var p :| p in s.toServer && IsNumber(p, k);
    assert FromClient(c, s.snd, p);
  }

  /** The client never resends the last chunk once it is lost. */
  lemma LastStaysLost(c: Config, s: Sys, i: SenderSpec.Input, fate: Fate)
    requires c.Ok() && Good(c, s) && Enabled(c, s, Client(i, fate)) && InData(s.snd) && LastLost(c, s)
    ensures LastLost(c, Next(c, s, Client(i, fate)))
  {
    hide ChecksumOk, EncodePdu, FilenamePayload, DataOnWire;
    ClientWire(c, s, i, fate);
    DataSent(c, s.snd, i);
    var last := |c.chunks| - 1;
    if Sends(c, s.snd, i, last) && s.snd.mode == PROCESS_ACKS {
      ArrivedAnswer(c, s, i.p);
      var k :| k > last && DataOnWire(s, k);
      OnWireWasSent(c, s, k);
    }
  }

  /** Nor the expected packet, once its SREJ is lost. */
  lemma RejectStaysLost(c: Config, s: Sys, i: SenderSpec.Input, fate: Fate)
    requires c.Ok() && Good(c, s) && Enabled(c, s, Client(i, fate)) && InData(s.snd) && RejectLost(c, s)
    ensures RejectLost(c, Next(c, s, Client(i, fate)))
  {
    hide ChecksumOk, EncodePdu, FilenamePayload, DataOnWire;
    ClientWire(c, s, i, fate);
    DataSent(c, s.snd, i);
    WhatPhasesMean(c, s);
    if s.snd.mode == PROCESS_ACKS && i.Arrived? {
      ArrivedAnswer(c, s, i.p);
    }
  }

  lemma ClientInDataStaysHopeless(c: Config, s: Sys, i: SenderSpec.Input, fate: Fate)
    requires c.Ok() && Good(c, s) && Enabled(c, s, Client(i, fate)) && InData(s.snd) && !Completable(c, s)
    ensures !Completable(c, Next(c, s, Client(i, fate)))
  {
    hide ChecksumOk, EncodePdu, FilenamePayload, LastLost, RejectLost, AnswerOnWire, Traces;
    var s' := Next(c, s, Client(i, fate));
    ClientWire(c, s, i, fate);
    WhatPhasesMean(c, s);
    NextKeepsGood(c, s, Client(i, fate));
    WhatPhasesMean(c, s');
    SameAnswers(s, s');
    if s.snd.mode == PROCESS_ACKS && i.Arrived? {
      ArrivedAnswer(c, s, i.p);
    }
    assert s'.snd.win.lower < |c.chunks|;
    if LastLost(c, s) {
      LastStaysLost(c, s, i, fate);
    }
    if RejectLost(c, s) {
      RejectStaysLost(c, s, i, fate);
    }
  }

  lemma SameAnswers(s: Sys, s': Sys)
    requires s'.toClient == s.toClient
    ensures forall flag, n: nat :: AnswerOnWire(s', flag, n) <==> AnswerOnWire(s, flag, n)
    ensures ConsentOnWire(s') <==> ConsentOnWire(s)
  {
    hide IsAnswer, IsConsent;
  }

  lemma ClientWhenDoneStaysHopeless(c: Config, s: Sys, i: SenderSpec.Input, fate: Fate)
    requires c.Ok() && Good(c, s) && Enabled(c, s, Client(i, fate)) && !Completable(c, s)
    requires !InHandshake(s.snd) && !InData(s.snd)
    ensures !Completable(c, Next(c, s, Client(i, fate)))
  {
    hide EncodePdu, FilenamePayload, LastLost, RejectLost, AnswerOnWire, ConsentOnWire, Traces;
    WhatPhasesMean(c, s);
  }

  lemma HostStaysHopeless(c: Config, s: Sys, i: ServerInput, fate: Fate)
    requires c.Ok() && Good(c, s) && Enabled(c, s, Host(i, fate)) && !Completable(c, s) && !InHandshake(s.snd)
    ensures !Completable(c, Next(c, s, Host(i, fate)))
  {
    hide ChecksumOk, EncodePdu, FilenamePayload, LastLost, RejectLost, Traces, ServerStep;
    hide AnswerOnWire, ConsentOnWire, RequestOnWire, Answers;
    var s' := Next(c, s, Host(i, fate));
    HostWire(c, s, i, fate);
    HostPhases(s.srv, i);
    WhatPhasesMean(c, s);
    NextKeepsGood(c, s, Host(i, fate));
    WhatPhasesMean(c, s');
    OnlyReceivingAnswers(s.srv, i);
    if InData(s.snd) && s.srv.phase == RECEIVING {
      HostKeepsLosses(c, s, i, fate);
    }
  }

  lemma OnlyReceivingAnswers(srv: Server, i: ServerInput)
    ensures forall flag, n: nat :: Answers(srv, i, flag, n) ==> srv.phase == RECEIVING
  {
    hide Reply, Usable;
  }

  lemma SameData(s: Sys, s': Sys)
    requires s'.toServer == s.toServer
    ensures forall k: nat :: DataOnWire(s', k) <==> DataOnWire(s, k)
  {
    hide IsNumber;
  }

  /** A server that has left the receive loop does not come back to it. */
  lemma HostPhases(srv: Server, i: ServerInput)
    ensures var phase := ServerStep(srv, i).next.phase;
            srv.phase != LISTENING ==> phase != LISTENING && (phase == RECEIVING ==> srv.phase == RECEIVING)
  {
    hide EncodePdu, Usable;
  }

  /** Nothing that can still be delivered makes up for the loss. */
  lemma HostKeepsLosses(c: Config, s: Sys, i: ServerInput, fate: Fate)
    requires c.Ok() && Good(c, s) && Enabled(c, s, Host(i, fate)) && s.srv.phase == RECEIVING
    ensures var s' := Next(c, s, Host(i, fate));
            && (LastLost(c, s) ==> LastLost(c, s'))
            && (RejectLost(c, s) ==> RejectLost(c, s'))
            && (LastLost(c, s) || RejectLost(c, s) ==> s'.srv.recv.expected < |c.chunks|)
  {
    hide ChecksumOk, EncodePdu, FilenamePayload, ServerStep, DataOnWire, Answers, FirstMissing;
    var s' := Next(c, s, Host(i, fate));
    HostWire(c, s, i, fate);
    HostReceives(s.srv, i);
    SameData(s, s');
    NextKeepsGood(c, s, Host(i, fate));
    WhatPhasesMean(c, s');
    assert s'.srv.recv.expected == |c.chunks| > 0 ==> |c.chunks| - 1 in s'.srv.recv.got;
    if RejectLost(c, s) {
      RejectedStays(c, s, i);
    }
  }

  lemma RejectedStays(c: Config, s: Sys, i: ServerInput)
    requires c.Ok() && Good(c, s) && ServerMayTake(s, i) && s.srv.phase == RECEIVING && RejectLost(c, s)
    ensures var v := ServerStep(s.srv, i).next.recv;
            v.expected == s.srv.recv.expected && v.HasGap()
    ensures !Answers(s.srv, i, FLAG_SREJ, s.srv.recv.expected)
  {
    hide ChecksumOk, EncodePdu, FilenamePayload, ServerStep, DataOnWire;
    HostReceives(s.srv, i);
    var v := s.srv.recv;
    var later :| later in v.got && later > v.expected;
    if IsData(i) {
      ArrivedFromWire(s, i);
      assert later in Receive(v, SequenceNum(i.p), Payload(i.p)).got;
    }
  }

  /** Once past the handshake: from a state that is not Completable no event leads to one that
      is, nor back into the handshake. */
  lemma HopelessForever(c: Config, s: Sys, e: Event)
    requires c.Ok() && Good(c, s) && Enabled(c, s, e) && !Completable(c, s) && !InHandshake(s.snd)
    ensures !Completable(c, Next(c, s, e)) && !InHandshake(Next(c, s, e).snd)
  {
    hide Good, Completable, Next, InData, InHandshake;
    NeverBack(c, s, e);
    match e
    case Client(i, fate) =>
      if InData(s.snd) {
        ClientInDataStaysHopeless(c, s, i, fate);
      } else {
        ClientWhenDoneStaysHopeless(c, s, i, fate);
      }
    case Host(i, fate) => HostStaysHopeless(c, s, i, fate);
  }

  lemma NeverBack(c: Config, s: Sys, e: Event)
    requires Enabled(c, s, e) && !InHandshake(s.snd)
    ensures !InHandshake(Next(c, s, e).snd)
  {
    hide EncodePdu, Usable;
  }
}

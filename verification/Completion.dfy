/** The other direction of Recovery: from every state that is not beyond repair there is a
    continuation that completes the transfer. */
module Completion {
  import opened Bytes
  import opened Checksum
  import opened Pdu
  import opened Channel
  import opened ReceiverSpec
  import opened SenderSpec
  import opened SenderProperties
  import opened ServerSpec
  import opened Transfer
  import opened Progress
  import opened Recovery

  // ---------------------------------------------------------------- what passes does not destroy hope

  predicate Hope(c: Config, s: Sys) {
    !LastLost(c, s) && !RejectLost(c, s)
  }

  lemma ClientPassedKeepsHope(c: Config, s: Sys, i: SenderSpec.Input)
    requires c.Ok() && Good(c, s) && Hope(c, s) && Enabled(c, s, Client(i, Passed))
    ensures Hope(c, Next(c, s, Client(i, Passed)))
  {
    hide ChecksumOk, EncodePdu, FilenamePayload, DataOnWire;
    var s' := Next(c, s, Client(i, Passed));
    ClientWire(c, s, i, Passed);
    SameAnswers(s, s');
    DataSent(c, s.snd, i);
    WhatPhasesMean(c, s);
  }

  lemma HostPassedKeepsHope(c: Config, s: Sys, i: ServerInput)
    requires c.Ok() && Good(c, s) && Hope(c, s) && Enabled(c, s, Host(i, Passed))
    ensures Hope(c, Next(c, s, Host(i, Passed)))
  {
    hide ChecksumOk, EncodePdu, FilenamePayload, DataOnWire, ServerStep, AnswerOnWire, Inv, FirstMissing;
    var s' := Next(c, s, Host(i, Passed));
    HostWire(c, s, i, Passed);
    HostReceives(s.srv, i);
    SameData(s, s');
    InvRecvOk(c, s);
    if s.srv.phase == RECEIVING && IsData(i) {
      OneReply(s.srv.recv, SequenceNum(i.p), Payload(i.p));
      var e' := s'.srv.recv.expected;
      assert s'.srv.recv.HasGap() ==> Answers(s.srv, i, FLAG_SREJ, e') || (s.srv.recv.HasGap() && e' == s.srv.recv.expected);
    }
  }

  /** Hope is lost only by losing a packet. */
  lemma PassedKeepsHope(c: Config, s: Sys, e: Event)
    requires c.Ok() && Good(c, s) && Hope(c, s) && Enabled(c, s, e) && e.fate.Passed?
    ensures Hope(c, Next(c, s, e))
  {
    hide Good, Hope, Next;
    match e
    case Client(i, _) => ClientPassedKeepsHope(c, s, i);
    case Host(i, _) => HostPassedKeepsHope(c, s, i);
  }

  // ---------------------------------------------------------------- steps towards completion

  ghost predicate Reach(c: Config, from: Sys, s: Sys) {
    Leads(c, from, s) && Good(c, s) && Hope(c, s)
  }

  lemma ReachOn(c: Config, from: Sys, s: Sys, e: Event)
    requires c.Ok() && Reach(c, from, s) && Enabled(c, s, e) && e.fate.Passed?
    ensures Reach(c, from, Next(c, s, e))
  {
    hide Good, Hope, Next, Enabled, Leads;
    LeadsOn(c, from, s, e);
    NextKeepsGood(c, s, e);
    PassedKeepsHope(c, s, e);
  }

  const WAIT := Client(Quiet, Passed)

  /** The client finds nothing; what it sends passes. */
  lemma ClientWaits(c: Config, from: Sys, s: Sys) returns (t: Sys)
    requires c.Ok() && Reach(c, from, s)
    ensures Reach(c, from, t) && t.snd == SenderStep(c, s.snd, Quiet).next
    ensures t.srv == s.srv && t.toClient == s.toClient && s.toServer <= t.toServer
    ensures forall out :: out in SenderStep(c, s.snd, Quiet).out ==> out in t.toServer
    ensures forall k: nat :: Sends(c, s.snd, Quiet, k) || DataOnWire(s, k) ==> DataOnWire(t, k)
  {
    hide SenderStep, Hope, Leads, Sends, DataOnWire, Inv, Traces;
    ClientStepKeeps(c, s, Quiet);
    t := Next(c, s, WAIT);
    ReachOn(c, from, s, WAIT);
    ClientWire(c, s, Quiet, Passed);
  }

  lemma ClientHears(c: Config, from: Sys, s: Sys, q: Octets) returns (t: Sys)
    requires c.Ok() && Reach(c, from, s) && q in s.toClient
    ensures Reach(c, from, t) && t.snd == SenderStep(c, s.snd, Arrived(q)).next
    ensures t.srv == s.srv && t.toClient == s.toClient && s.toServer <= t.toServer
    ensures forall k: nat :: Sends(c, s.snd, Arrived(q), k) || DataOnWire(s, k) ==> DataOnWire(t, k)
  {
    hide SenderStep, Hope, Leads, Sends, DataOnWire, Transmit, Inv, Traces;
    var e := Client(Arrived(q), Passed);
    ClientStepKeeps(c, s, Arrived(q));
    t := Next(c, s, e);
    ReachOn(c, from, s, e);
    ClientWire(c, s, Arrived(q), Passed);
  }

  /** The server gets a packet; its answer passes. */
  lemma HostHears(c: Config, from: Sys, s: Sys, i: ServerInput) returns (t: Sys)
    requires c.Ok() && Reach(c, from, s) && ServerMayTake(s, i)
    ensures Reach(c, from, t) && t.srv == ServerStep(s.srv, i).next
    ensures t.snd == s.snd && t.toServer == s.toServer && s.toClient <= t.toClient
    ensures forall out :: out in ServerStep(s.srv, i).out ==> out in t.toClient
    ensures forall flag, n: nat :: (flag == FLAG_RR || flag == FLAG_SREJ) && Answers(s.srv, i, flag, n) ==>
              AnswerOnWire(t, flag, n)
  {
    hide ServerStep, Hope, Leads, AnswerOnWire, Answers, Inv, Traces;
    var e := Host(i, Passed);
    ServerStepKeeps(c, s, i);
    t := Next(c, s, e);
    ReachOn(c, from, s, e);
    HostWire(c, s, i, Passed);
  }

  /** A client in its data states gets to process acknowledgements, unless all is done. */
  lemma ToAcks(c: Config, from: Sys, s: Sys) returns (t: Sys)
    requires c.Ok() && Reach(c, from, s) && InData(s.snd)
    ensures Reach(c, from, t) && (t.snd.mode == PROCESS_ACKS || AllAcknowledged(c, t.snd))
    ensures t.srv == s.srv && t.toClient == s.toClient && s.toServer <= t.toServer
    ensures t.snd.win.lower == s.snd.win.lower
    ensures s.snd.mode == WINDOW_CLOSED ==> t.snd == s.snd.(mode := PROCESS_ACKS, timeoutCount := 0)
  {
    hide ChecksumOk, EncodePdu, FilenamePayload, Hope, Leads, Sends, DataOnWire, Reach;
    t := s;
    if t.snd.mode == SEND_DATA {
      ReachOk(c, from, s);
      t := ClientWaits(c, from, s);
      assert SenderStep(c, s.snd, Quiet) == SendDataStep(c, s.snd, Quiet);
    }
    if t.snd.mode == WINDOW_CLOSED {
      ReachOk(c, from, t);
      var q :| q in t.toClient;
      var closed := t;
      t := ClientHears(c, from, closed, q);
      assert SenderStep(c, closed.snd, Arrived(q)) == WindowClosedStep(closed.snd, Arrived(q));
    }
  }

  lemma ReachOk(c: Config, from: Sys, s: Sys)
    requires Reach(c, from, s)
    ensures SenderOk(c, s.snd) && (InData(s.snd) ==> s.toClient != {})
  {
    hide EncodePdu, FilenamePayload, ChecksumOk, Leads, Hope;
  }

  /** The client takes an RR or SREJ that is on the wire. */
  lemma TakeAnswer(c: Config, from: Sys, s: Sys, flag: byte, n: nat) returns (t: Sys)
    requires c.Ok() && Reach(c, from, s) && s.snd.mode == PROCESS_ACKS
    requires (flag == FLAG_RR || flag == FLAG_SREJ) && AnswerOnWire(s, flag, n)
    ensures Reach(c, from, t) && t.srv == s.srv && t.snd.mode == PROCESS_ACKS
    ensures t.snd.win == if flag == FLAG_RR then s.snd.win.AckRR(n) else s.snd.win
    ensures flag == FLAG_SREJ && s.snd.win.lower <= n < s.snd.win.current ==> DataOnWire(t, n)
  {
    hide ChecksumOk, EncodePdu, FilenamePayload, Hope, Leads, DataOnWire, Reach;
    var q :| q in s.toClient && IsAnswer(q, flag, n);
    t := ClientHears(c, from, s, q);
    assert SenderStep(c, s.snd, Arrived(q)) == ProcessAcksStep(s.snd, Arrived(q));
    assert flag == FLAG_SREJ && s.snd.win.lower <= n < s.snd.win.current ==> Sends(c, s.snd, Arrived(q), n);
  }

  /** The server takes a data packet that is on the wire. */
  lemma TakeData(c: Config, from: Sys, s: Sys, k: nat) returns (t: Sys)
    requires c.Ok() && Reach(c, from, s) && s.srv.phase == RECEIVING && DataOnWire(s, k)
    ensures k < |c.chunks|
    ensures Reach(c, from, t) && t.snd == s.snd && t.toServer == s.toServer
    ensures t.srv.phase == RECEIVING && t.srv.recv == Receive(s.srv.recv, k, c.chunks[k])
    ensures forall r :: r in Reply(s.srv.recv, k, c.chunks[k]) ==>
              AnswerOnWire(t, if r.RR? then FLAG_RR else FLAG_SREJ, r.n)
  {
    hide ChecksumOk, EncodePdu, FilenamePayload, Hope, Leads, AnswerOnWire, Receive, Reply;
    var p :| p in s.toServer && IsNumber(p, k);
    assert FromClient(c, s.snd, p);
    var i := ServerInput.Packet(p, [], true);
    t := HostHears(c, from, s, i);
    HostReceives(s.srv, i);
    assert ServerStep(s.srv, i) == DataStep(s.srv, p);
    forall r | r in Reply(s.srv.recv, k, c.chunks[k])
      ensures AnswerOnWire(t, if r.RR? then FLAG_RR else FLAG_SREJ, r.n)
    {
      assert Answers(s.srv, i, if r.RR? then FLAG_RR else FLAG_SREJ, r.n);
    }
  }

  /** The client learns everything that the server already has. */
  lemma CatchUp(c: Config, from: Sys, s: Sys) returns (t: Sys)
    requires c.Ok() && Reach(c, from, s) && InData(s.snd) && s.srv.phase == RECEIVING
    ensures Reach(c, from, t)
    ensures AllAcknowledged(c, t.snd) || (t.snd.mode == PROCESS_ACKS && t.snd.win.lower == s.srv.recv.expected)
    ensures t.srv.phase == RECEIVING && t.srv.recv == s.srv.recv
  {
    hide ChecksumOk, EncodePdu, FilenamePayload, Hope, Leads, AnswerOnWire, DataOnWire;
    hide Inv, SenderOk, ReceiverOk, FromServer, FromClient;
    var e := s.srv.recv.expected;
    ReachCursors(c, from, s);
    if s.snd.win.lower == e {
      t := ToAcks(c, from, s);
      return;
    }
    InvRecvOk(c, s);
    assert e - 1 in s.srv.recv.got;
    var s1 := TakeData(c, from, s, e - 1);
    assert RR(e) in Reply(s.srv.recv, e - 1, c.chunks[e - 1]);
    var s2 := ToAcks(c, from, s1);
    if AllAcknowledged(c, s2.snd) {
      return s2;
    }
    AnswerStays(s1, s2, FLAG_RR, e);
    t := TakeAnswer(c, from, s2, FLAG_RR, e);
    ReachCursors(c, from, s2);
  }

  lemma AnswerStays(s: Sys, t: Sys, flag: byte, n: nat)
    requires s.toClient <= t.toClient && AnswerOnWire(s, flag, n)
    ensures AnswerOnWire(t, flag, n)
  {
    hide IsAnswer;
  }

  lemma ReachCursors(c: Config, from: Sys, s: Sys)
    requires Reach(c, from, s)
    ensures s.snd.win.lower <= s.srv.recv.expected <= s.snd.win.current <= |c.chunks|
    ensures s.snd.win.size == c.windowSize && s.snd.win.current <= s.snd.win.lower + c.windowSize
    ensures s.snd.filePos == s.snd.win.current
    ensures s.snd.eofReached ==> s.snd.win.current == |c.chunks| && s.snd.win.IsOpen()
  {
    hide ChecksumOk, EncodePdu, FilenamePayload, Hope, Leads;
    ExpectedWasSent(c, s.snd, s.srv);
  }

  /** The client reads and sends one more chunk. */
  lemma SendNext(c: Config, from: Sys, s: Sys) returns (t: Sys)
    requires c.Ok() && Reach(c, from, s) && s.snd.mode == PROCESS_ACKS
    requires s.snd.win.IsOpen() && s.snd.win.current < |c.chunks|
    ensures Reach(c, from, t) && t.srv == s.srv && s.toClient == t.toClient && s.toServer <= t.toServer
    ensures t.snd.mode == PROCESS_ACKS && t.snd.win.lower == s.snd.win.lower && t.snd.win.current == s.snd.win.current + 1
    ensures DataOnWire(t, s.snd.win.current)
  {
    hide ChecksumOk, EncodePdu, FilenamePayload, Hope, Leads, DataOnWire, Reach;
    ReachCursors(c, from, s);
    var s1 := ClientWaits(c, from, s);
    assert SenderStep(c, s.snd, Quiet) == ProcessAcksStep(s.snd, Quiet);
    t := ClientWaits(c, from, s1);
    assert SenderStep(c, s1.snd, Quiet) == SendDataStep(c, s1.snd, Quiet);
    assert Sends(c, s1.snd, Quiet, s.snd.win.current);
  }

  /** If the file goes on to fill the window, the client fills it, and the timeout brings the
      lowest packet back. */
  lemma {:induction false} FillAndResend(c: Config, from: Sys, s: Sys) returns (t: Sys)
    requires c.Ok() && Reach(c, from, s) && s.snd.mode == PROCESS_ACKS
    requires s.snd.win.lower + c.windowSize <= |c.chunks|
    ensures Reach(c, from, t) && t.srv == s.srv && InData(t.snd) && DataOnWire(t, s.snd.win.lower)
    decreases s.snd.win.lower + c.windowSize - s.snd.win.current
  {
    hide ChecksumOk, EncodePdu, FilenamePayload, Hope, Leads, DataOnWire, Reach;
    ReachCursors(c, from, s);
    if s.snd.win.IsOpen() {
      var s1 := SendNext(c, from, s);
      t := FillAndResend(c, from, s1);
    } else {
      var s1 := ClientWaits(c, from, s);
      assert SenderStep(c, s.snd, Quiet) == ProcessAcksStep(s.snd, Quiet);
      var s2 := ToAcks(c, from, s1);
      var s3 := ClientWaits(c, from, s2);
      assert SenderStep(c, s2.snd, Quiet) == ProcessAcksStep(s2.snd, Quiet);
      t := ClientWaits(c, from, s3);
      assert SenderStep(c, s3.snd, Quiet) == WindowClosedStep(s3.snd, Quiet);
      assert Sends(c, s3.snd, Quiet, s.snd.win.lower);
    }
  }

  /** Near the end of the file, where no timeout helps: a later packet provokes the SREJ. */
  lemma ProvokeSrej(c: Config, from: Sys, s: Sys, k: nat) returns (t: Sys)
    requires c.Ok() && Reach(c, from, s) && s.snd.mode == PROCESS_ACKS && s.srv.phase == RECEIVING
    requires !s.srv.recv.HasGap() && DataOnWire(s, k) && k > s.srv.recv.expected
    requires s.snd.win.lower == s.srv.recv.expected < s.snd.win.current
    ensures Reach(c, from, t) && t.srv.phase == RECEIVING && InData(t.snd)
    ensures t.srv.recv.expected == s.srv.recv.expected && DataOnWire(t, s.srv.recv.expected)
  {
    hide ChecksumOk, EncodePdu, FilenamePayload, Hope, Leads, AnswerOnWire, DataOnWire, Reach, Inv;
    var e := s.srv.recv.expected;
    var s1 := TakeData(c, from, s, k);
    ReachRecvOk(c, from, s);
    assert SREJ(e) in Reply(s.srv.recv, k, c.chunks[k]);
    t := TakeAnswer(c, from, s1, FLAG_SREJ, e);
  }

  lemma ReachRecvOk(c: Config, from: Sys, s: Sys)
    requires Reach(c, from, s)
    ensures s.srv.recv.Ok()
  {
    hide ChecksumOk, EncodePdu, FilenamePayload, Hope, Leads, Traces;
  }

  /** While there is hope, the packet that the server waits for can be put on the wire. */
  lemma ExpectedOnWire(c: Config, from: Sys, s: Sys) returns (t: Sys)
    requires c.Ok() && Reach(c, from, s) && s.snd.mode == PROCESS_ACKS && s.srv.phase == RECEIVING
    requires s.snd.win.lower == s.srv.recv.expected < |c.chunks|
    ensures Reach(c, from, t) && t.srv.phase == RECEIVING && InData(t.snd)
    ensures t.srv.recv.expected == s.srv.recv.expected && DataOnWire(t, s.srv.recv.expected)
  {
    hide ChecksumOk, EncodePdu, FilenamePayload, Leads, Good, AnswerOnWire, DataOnWire;
    var e := s.srv.recv.expected;
    ReachCursors(c, from, s);
    if DataOnWire(s, e) {
      t := s;
    } else if e == s.snd.win.current {
      t := SendNext(c, from, s);
    } else if e + c.windowSize <= |c.chunks| {
      t := FillAndResend(c, from, s);
    } else if AnswerOnWire(s, FLAG_SREJ, e) {
      t := TakeAnswer(c, from, s, FLAG_SREJ, e);
    } else if s.snd.win.current < |c.chunks| {
      var s1 := SendNext(c, from, s);
      t := ProvokeSrej(c, from, s1, s.snd.win.current);
    } else {
      t := ProvokeSrej(c, from, s, |c.chunks| - 1);
    }
  }

  /** With everything received, the client only has to hear of it. */
  lemma ReadEof(c: Config, from: Sys, s: Sys) returns (t: Sys)
    requires c.Ok() && Reach(c, from, s) && s.snd.mode == PROCESS_ACKS && s.snd.win.lower == |c.chunks|
    ensures Reach(c, from, t) && AllAcknowledged(c, t.snd) && t.srv == s.srv
  {
    hide ChecksumOk, EncodePdu, FilenamePayload, Hope, Leads, DataOnWire, Reach;
    ReachCursors(c, from, s);
    if s.snd.eofReached {
      return s;
    }
    var s1 := ClientWaits(c, from, s);
    assert SenderStep(c, s.snd, Quiet) == ProcessAcksStep(s.snd, Quiet);
    t := ClientWaits(c, from, s1);
    assert SenderStep(c, s1.snd, Quiet) == SendDataStep(c, s1.snd, Quiet);
  }

  /** From any hopeful state in which both ends are at it, the whole file gets across. */
  lemma {:induction false} Drain(c: Config, from: Sys, s: Sys) returns (t: Sys)
    requires c.Ok() && Reach(c, from, s) && InData(s.snd) && s.srv.phase == RECEIVING
    ensures Reach(c, from, t) && AllAcknowledged(c, t.snd)
    decreases |c.chunks| - s.srv.recv.expected
  {
    hide ChecksumOk, EncodePdu, FilenamePayload, Reach, DataOnWire, AnswerOnWire;
    var s1 := CatchUp(c, from, s);
    ReachCursors(c, from, s1);
    if AllAcknowledged(c, s1.snd) {
      t := s1;
    } else if s1.srv.recv.expected == |c.chunks| {
      t := ReadEof(c, from, s1);
    } else {
      var e := s1.srv.recv.expected;
      var s2 := ExpectedOnWire(c, from, s1);
      var s3 := TakeData(c, from, s2, e);
      ReachRecvOk(c, from, s2);
      ReachCursors(c, from, s3);
      t := Drain(c, from, s3);
    }
  }

  /** The RR for the whole file is there, or was: the server is no longer needed. */
  lemma HearLast(c: Config, from: Sys, s: Sys) returns (t: Sys)
    requires c.Ok() && Reach(c, from, s) && InData(s.snd)
    requires s.snd.win.lower == |c.chunks| || AnswerOnWire(s, FLAG_RR, |c.chunks|)
    ensures Reach(c, from, t) && AllAcknowledged(c, t.snd)
  {
    hide ChecksumOk, EncodePdu, FilenamePayload, Hope, Leads, Good, AnswerOnWire, DataOnWire;
    WhatPhasesMean(c, s);
    var s1 := ToAcks(c, from, s);
    if AllAcknowledged(c, s1.snd) {
      return s1;
    }
    ReachCursors(c, from, s1);
    if s1.snd.win.lower < |c.chunks| {
      AnswerStays(s, s1, FLAG_RR, |c.chunks|);
      s1 := TakeAnswer(c, from, s1, FLAG_RR, |c.chunks|);
    }
    t := ReadEof(c, from, s1);
  }

  // ---------------------------------------------------------------- the handshake

  /** Consent that is on the wire is taken. */
  lemma TakeConsent(c: Config, from: Sys, s: Sys) returns (t: Sys)
    requires c.Ok() && Reach(c, from, s) && InHandshake(s.snd) && ConsentOnWire(s)
    ensures Reach(c, from, t) && t.snd.mode == SEND_DATA && t.srv == s.srv && t.snd.win == s.snd.win
  {
    hide ChecksumOk, EncodePdu, FilenamePayload, Reach, DataOnWire;
    var q :| q in s.toClient && IsConsent(q);
    var s1 := s;
    if s.snd.mode == SEND_FILENAME {
      s1 := ClientWaits(c, from, s);
      assert SenderStep(c, s.snd, Quiet) == SendFilenameStep(c, s.snd);
    }
    t := ClientHears(c, from, s1, q);
    assert SenderStep(c, s1.snd, Arrived(q)) == WaitFilenameAckStep(s1.snd, Arrived(q));
  }

  /** The server takes a request that is on the wire, and consents. */
  lemma ServerConsents(c: Config, from: Sys, s: Sys) returns (t: Sys)
    requires c.Ok() && Reach(c, from, s) && s.srv.phase == LISTENING && RequestOnWire(s)
    ensures Reach(c, from, t) && t.snd == s.snd && t.srv.phase == RECEIVING && ConsentOnWire(t)
  {
    hide ChecksumOk, EncodePdu, FilenamePayload, ParseFilename, Hope, Leads, Traces;
    var p :| p in s.toServer && IsRequest(p);
    assert FromClient(c, s.snd, p);
    FilenameRoundTrip(p, c.windowSize, c.bufferSize, c.toFile, []);
    var i := ServerInput.Packet(p, [], true);
    t := HostHears(c, from, s, i);
    assert ServerStep(s.srv, i) == ListenStep(s.srv, i);
    var response := EncodePdu(Little, s.srv.controlSeqNum, FLAG_FILENAME_RESPONSE, [0]);
    EncodedPdu(s.srv.controlSeqNum, FLAG_FILENAME_RESPONSE, [0]);
    assert response[HEADER_LEN] == Payload(response)[0];
    assert response in ServerStep(s.srv, i).out;
    assert IsConsent(response);
  }

  lemma SendRequest(c: Config, from: Sys, s: Sys) returns (t: Sys)
    requires c.Ok() && Reach(c, from, s) && s.snd.mode == SEND_FILENAME
    ensures Reach(c, from, t) && t.srv == s.srv && t.snd.mode == WAIT_FILENAME_ACK && RequestOnWire(t)
  {
    hide ChecksumOk, EncodePdu, FilenamePayload, Reach, DataOnWire;
    t := ClientWaits(c, from, s);
    assert SenderStep(c, s.snd, Quiet) == SendFilenameStep(c, s.snd);
    var payload := FilenamePayload(c.windowSize, c.bufferSize, c.toFile);
    var request := EncodePdu(Little, s.snd.controlSeqNum, FLAG_FILENAME, payload);
    EncodedPdu(s.snd.controlSeqNum, FLAG_FILENAME, payload);
    assert request in SenderStep(c, s.snd, Quiet).out;
    assert IsRequest(request);
  }

  /** A listening server and a client with a try left, or a request on the wire. */
  lemma Connect(c: Config, from: Sys, s: Sys) returns (t: Sys)
    requires c.Ok() && Reach(c, from, s) && InHandshake(s.snd) && s.srv.phase == LISTENING
    requires s.snd.mode == WAIT_FILENAME_ACK ==> s.snd.filenameTries < MAX_TRIES - 1 || RequestOnWire(s)
    ensures Reach(c, from, t) && t.snd.mode == SEND_DATA && t.srv.phase == RECEIVING
  {
    hide ChecksumOk, EncodePdu, FilenamePayload, Reach, DataOnWire, RequestOnWire, ConsentOnWire;
    var s1 := s;
    if s1.snd.mode == WAIT_FILENAME_ACK && !RequestOnWire(s1) {
      s1 := ClientWaits(c, from, s1);
      assert SenderStep(c, s.snd, Quiet) == WaitFilenameAckStep(s.snd, Quiet);
    }
    if s1.snd.mode == SEND_FILENAME {
      s1 := SendRequest(c, from, s1);
    }
    var s2 := ServerConsents(c, from, s1);
    t := TakeConsent(c, from, s2);
  }

  // ---------------------------------------------------------------- exactly the completable states

  lemma Start(c: Config, s: Sys)
    requires Good(c, s) && Completable(c, s) && !AllAcknowledged(c, s.snd)
    ensures Reach(c, s, s)
    ensures s.snd.mode != DONE && s.snd.mode != SEND_EOF && s.snd.mode != WAIT_EOF_ACK
  {
    hide ChecksumOk, EncodePdu, FilenamePayload, AnswerOnWire, DataOnWire, Leads, Traces;
    LeadsHere(c, s);
    WhatPhasesMean(c, s);
  }

  /** From every completable state the transfer can be completed. */
  lemma CompletableCompletes(c: Config, s: Sys) returns (t: Sys)
    requires c.Ok() && Good(c, s) && Completable(c, s)
    ensures Leads(c, s, t) && Good(c, t) && AllAcknowledged(c, t.snd)
  {
    hide ChecksumOk, EncodePdu, FilenamePayload, Leads, Good, Hope;
    hide AnswerOnWire, DataOnWire, ConsentOnWire, RequestOnWire, LastLost, RejectLost;
    if AllAcknowledged(c, s.snd) {
      LeadsHere(c, s);
      return s;
    }
    Start(c, s);
    var s1 := s;
    if InHandshake(s.snd) {
      if ConsentOnWire(s) && Consented(c, s) {
        s1 := TakeConsent(c, s, s);
      } else {
        s1 := Connect(c, s, s);
      }
      ReachCursors(c, s, s1);
    }
    if s1.srv.phase == RECEIVING {
      t := Drain(c, s, s1);
    } else {
      t := HearLast(c, s, s1);
    }
  }
}

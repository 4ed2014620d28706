/** A network that passes every packet at once: the whole file arrives and both ends finish. */
module Delivery {
  import opened Bytes
  import opened Checksum
  import opened Pdu
  import opened Channel
  import opened ReceiverSpec
  import opened Receiver
  import opened SenderSpec
  import opened ServerSpec
  import opened Transfer
  import opened Safety
  import opened Progress

  /** A reachable state in which everything sent so far is acknowledged. */
  ghost predicate UpToDate(c: Config, s: Sys, k: nat) {
    && Leads(c, InitialSys(c), s) && Inv(c, s)
    && s.snd.mode == SEND_DATA && !s.snd.eofReached
    && s.snd.win.lower == s.snd.win.current == k
    && s.srv.phase == RECEIVING
  }

  /** The request, the server's answer, and its arrival. */
  lemma Handshake(c: Config) returns (s: Sys)
    requires c.Ok()
    ensures UpToDate(c, s, 0)
  {
    hide EncodePdu, Usable, FilenamePayload, ParseFilename, Inv;
    var s0 := InitialSys(c);
    InitialInv(c);
    LeadsHere(c, s0);

    var e1 := Client(Quiet, Passed);
    var request := EncodePdu(Little, 0, FLAG_FILENAME, FilenamePayload(c.windowSize, c.bufferSize, c.toFile));
    assert SenderStep(c, s0.snd, Quiet) == SendFilenameStep(c, s0.snd);
    var s1 := Next(c, s0, e1);
    assert request in s1.toServer && s1.snd.mode == WAIT_FILENAME_ACK;
    NextKeepsInv(c, s0, e1);
    LeadsOn(c, s0, s0, e1);

    var e2 := Host(ServerInput.Packet(request, [], true), Passed);
    EncodedPdu(0, FLAG_FILENAME, FilenamePayload(c.windowSize, c.bufferSize, c.toFile));
    FilenameRoundTrip(request, c.windowSize, c.bufferSize, c.toFile, []);
    var response := EncodePdu(Little, 0, FLAG_FILENAME_RESPONSE, [0]);
    assert ServerStep(s1.srv, e2.request) == ListenStep(s1.srv, e2.request);
    var s2 := Next(c, s1, e2);
    assert response in s2.toClient && s2.srv.phase == RECEIVING && s2.snd == s1.snd;
    NextKeepsInv(c, s1, e2);
    LeadsOn(c, s0, s1, e2);

    var e3 := Client(Arrived(response), Passed);
    EncodedPdu(0, FLAG_FILENAME_RESPONSE, [0]);
    assert response[HEADER_LEN] == Payload(response)[0];
    assert SenderStep(c, s2.snd, Arrived(response)) == WaitFilenameAckStep(s2.snd, Arrived(response));
    s := Next(c, s2, e3);
    NextKeepsInv(c, s2, e3);
    LeadsOn(c, s0, s2, e3);
  }

  /** The next chunk is read, sent and kept. */
  lemma SendChunk(c: Config, s: Sys, k: nat) returns (e: Transfer.Event)
    requires c.Ok() && UpToDate(c, s, k) && k < |c.chunks|
    ensures Enabled(c, s, e)
    ensures var t := Next(c, s, e);
            && t.srv == s.srv && t.snd.mode == PROCESS_ACKS && !t.snd.eofReached
            && t.snd.win.lower == k && t.snd.win.current == k + 1
            && t.snd.win.Packet(k).Some? && t.snd.win.Packet(k).value in t.toServer
  {
    hide EncodePdu, Usable, FilenamePayload;
    e := Client(Quiet, Passed);
    assert SenderStep(c, s.snd, Quiet) == SendDataStep(c, s.snd, Quiet);
  }

  lemma ReplyIsRR(c: Config, s: Sys, d: Octets)
    requires Inv(c, s) && s.srv.recv.expected + 1 == s.snd.win.current
    ensures Reply(s.srv.recv, s.srv.recv.expected, d) == [RR(s.snd.win.current)]
  {
    hide EncodePdu, Usable, FilenamePayload;
    var v := s.srv.recv;
    var got := v.got[v.expected := d];
    LeastMissingIsUnique(got, v.expected, v.expected + 1);
  }

  lemma AllReceived(c: Config, s: Sys, k: nat)
    requires Inv(c, s) && s.snd.win.lower == s.snd.win.current == k
    ensures s.srv.recv.expected == k
  {
    hide EncodePdu, Usable, FilenamePayload;
    ExpectedWasSent(c, s.snd, s.srv);
  }

  /** Four steps per chunk: it is sent, arrives, is acknowledged, and the client goes on. */
  lemma OneChunk(c: Config, s: Sys, k: nat) returns (t: Sys)
    requires c.Ok() && UpToDate(c, s, k) && k < |c.chunks|
    ensures UpToDate(c, t, k + 1)
  {
    hide EncodePdu, Inv, Enabled, Next, Receive, Reply, ControlBytes, SenderStep, ServerStep;
    var s0 := InitialSys(c);
    AllReceived(c, s, k);
    var e1 := SendChunk(c, s, k);
    var s1 := Next(c, s, e1);
    NextKeepsInv(c, s, e1);
    LeadsOn(c, s0, s, e1);

    var e2, q, r := AnswerLowest(c, s1, s1.snd.win.Packet(k).value);
    var s2 := Next(c, s1, e2);
    NextKeepsInv(c, s1, e2);
    LeadsOn(c, s0, s1, e2);
    ReplyToChunk(c, s1, k, r);

    var e3 := ProcessAnswer(c, s2, s1.srv.ackSeqNum, r);
    var s3 := Next(c, s2, e3);
    NextKeepsInv(c, s2, e3);
    LeadsOn(c, s0, s2, e3);

    var e4 := GoOn(c, s3);
    t := Next(c, s3, e4);
    NextKeepsInv(c, s3, e4);
    LeadsOn(c, s0, s3, e4);
  }

  lemma ReplyToChunk(c: Config, s: Sys, k: nat, r: Control)
    requires c.Ok() && Inv(c, s) && s.snd.win.lower == k && s.snd.win.current == k + 1
    requires s.snd.win.Packet(k).Some?
    requires var p := s.snd.win.Packet(k).value;
             |p| >= HEADER_LEN && Reply(s.srv.recv, SequenceNum(p), Payload(p)) == [r]
    requires s.srv.recv.expected == k
    ensures r == RR(k + 1)
  {
    hide EncodePdu, Usable, FilenamePayload, Reply;
    EncodedPdu(ToU32(k), FLAG_DATA, c.chunks[k]);
    ReplyIsRR(c, s, c.chunks[k]);
  }

  lemma GoOn(c: Config, s: Sys) returns (e: Transfer.Event)
    requires c.Ok() && Inv(c, s) && s.snd.mode == PROCESS_ACKS && !s.snd.eofReached && s.snd.win.lower == s.snd.win.current
    ensures Enabled(c, s, e) && Next(c, s, e) == s.(snd := s.snd.(mode := SEND_DATA))
  {
    hide EncodePdu, Usable, FilenamePayload;
    e := Client(Quiet, Passed);
    assert SenderStep(c, s.snd, Quiet) == ProcessAcksStep(s.snd, Quiet);
  }

  lemma {:induction false} ManyChunks(c: Config, k: nat) returns (s: Sys)
    requires c.Ok() && k <= |c.chunks|
    ensures UpToDate(c, s, k)
    decreases k
  {
    hide UpToDate;
    if k == 0 {
      s := Handshake(c);
    } else {
      var t := ManyChunks(c, k - 1);
      s := OneChunk(c, t, k - 1);
    }
  }

  /** EOF, EOF_ACK, FINAL_ACK. */
  lemma Finish(c: Config, s: Sys) returns (t: Sys)
    requires c.Ok() && UpToDate(c, s, |c.chunks|)
    ensures Leads(c, InitialSys(c), t) && Inv(c, t)
    ensures t.snd.mode == DONE && t.srv.phase == FINISHED && t.srv.recv == s.srv.recv
  {
    hide EncodePdu, Usable, FilenamePayload, Leads;
    var s0 := InitialSys(c);
    var quiet := Client(Quiet, Passed);
    assert SenderStep(c, s.snd, Quiet) == SendDataStep(c, s.snd, Quiet);
    var s1 := Next(c, s, quiet);
    assert s1 == s.(snd := s.snd.(mode := SEND_EOF, eofReached := true));
    LeadsOn(c, s0, s, quiet);
    NextKeepsInv(c, s, quiet);
    t := LastThree(c, s1);
  }

  lemma LastThree(c: Config, s: Sys) returns (t: Sys)
    requires c.Ok() && Inv(c, s) && Leads(c, InitialSys(c), s)
    requires s.snd.mode == SEND_EOF && s.srv.phase == RECEIVING
    ensures Leads(c, InitialSys(c), t) && Inv(c, t)
    ensures t.snd.mode == DONE && t.srv.phase == FINISHED && t.srv.recv == s.srv.recv
  {
    hide EncodePdu, Usable, Leads, Inv;
    var s0 := InitialSys(c);

    var e1 := Client(Quiet, Passed);
    var eof := EncodePdu(Little, s.snd.controlSeqNum, FLAG_EOF, []);
    assert SenderStep(c, s.snd, Quiet) == SendEofStep(s.snd);
    var s1 := Next(c, s, e1);
    assert eof in s1.toServer && s1.srv == s.srv && s1.snd.mode == WAIT_EOF_ACK;
    NextKeepsInv(c, s, e1);
    LeadsOn(c, s0, s, e1);

    var e2 := Host(ServerInput.Packet(eof, [], true), Passed);
    EncodedPdu(s.snd.controlSeqNum, FLAG_EOF, []);
    var eofAck := EncodePdu(Little, s1.srv.controlSeqNum, FLAG_EOF_ACK, []);
    assert ServerStep(s1.srv, e2.request) == ReceiveStep(s1.srv, e2.request);
    var s2 := Next(c, s1, e2);
    assert eofAck in s2.toClient && s2.srv.phase == EOF_LOOP(0) && s2.srv.recv == s.srv.recv && s2.snd == s1.snd;
    NextKeepsInv(c, s1, e2);
    LeadsOn(c, s0, s1, e2);

    var e3 := Client(Arrived(eofAck), Passed);
    EncodedPdu(s1.srv.controlSeqNum, FLAG_EOF_ACK, []);
    var finalAck := EncodePdu(Little, s2.snd.controlSeqNum, FLAG_FINAL_ACK, []);
    assert SenderStep(c, s2.snd, Arrived(eofAck)) == WaitEofAckStep(s2.snd, Arrived(eofAck));
    var s3 := Next(c, s2, e3);
    assert finalAck in s3.toServer && s3.snd.mode == DONE && s3.srv == s2.srv;
    NextKeepsInv(c, s2, e3);
    LeadsOn(c, s0, s2, e3);

    var e4 := Host(ServerInput.Packet(finalAck, [], true), Passed);
    EncodedPdu(s2.snd.controlSeqNum, FLAG_FINAL_ACK, []);
    assert ServerStep(s3.srv, e4.request) == EofLoopStep(s3.srv, e4.request);
    t := Next(c, s3, e4);
    NextKeepsInv(c, s3, e4);
    LeadsOn(c, s0, s3, e4);
  }

  /** For every file, window size and chunk size there is a run at whose end the client is done,
      the server has returned, and the output file is the input file. */
  lemma EveryFileCanBeTransferred(c: Config) returns (events: seq<Transfer.Event>)
    requires c.Ok()
    ensures Play(c, events).Some?
    ensures var s := Play(c, events).value;
            && s.snd.mode == DONE && s.srv.phase == FINISHED
            && s.srv.recv.Ok() && FileWritten(s.srv) == FileUpTo(c.chunks, |c.chunks|)
  {
    hide Inv, FileWritten, Play, Continue;
    var s := ManyChunks(c, |c.chunks|);
    var t := Finish(c, s);
    events :| Continue(c, InitialSys(c), events) == Some(t);
    PlayIsContinue(c, events);
    PrefixSafety(c, events);
    AllReceived(c, s, |c.chunks|);
  }
}

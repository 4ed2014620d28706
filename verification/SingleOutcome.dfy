/** What a network that delivers nothing twice can do: transfer every file, and lose any that is
    not empty. */
module SingleOutcome {
  import opened Bytes
  import opened Checksum
  import opened Pdu
  import opened Channel
  import opened ReceiverSpec
  import opened SenderSpec
  import opened SenderProperties
  import opened ServerSpec
  import opened Transfer
  import opened Recovery
  import opened Outcome
  import opened SingleDelivery
  import opened SingleCompletion

  /** A reachable state with `k` chunks across, nothing else sent, and nothing in flight. */
  ghost predicate Clean(c: Config, x: Strict, k: nat) {
    && Leads(c, InitialStrict(c), x) && Steady(c, x) && x.flight == CLEAR
    && x.sys.snd.mode == SEND_DATA && !x.sys.snd.eofReached && x.sys.srv.phase == RECEIVING
    && x.sys.snd.win.lower == x.sys.snd.win.current == x.sys.srv.recv.expected == k
  }

  lemma StepOn(c: Config, x: Strict, e: Event) returns (y: Strict)
    requires c.Ok() && Leads(c, InitialStrict(c), x) && Steady(c, x) && Allowed(c, x, e)
    ensures y == StrictNext(c, x, e) && Leads(c, InitialStrict(c), y) && Steady(c, y)
  {
    hide Steady, Leads, Allowed, StrictNext;
    y := StrictNext(c, x, e);
    SingleCompletion.LeadsOn(c, InitialStrict(c), x, e);
    NextKeepsSteady(c, x, e);
  }

  /** The request, the server's answer, and its arrival. */
  lemma Handshake(c: Config) returns (x: Strict)
    requires c.Ok()
    ensures Clean(c, x, 0)
  {
    hide EncodePdu, Usable, FilenamePayload, ParseFilename, Steady, Leads;
    var x0 := InitialStrict(c);
    InitialSteady(c);
    SingleCompletion.LeadsHere(c, x0);
    var payload := FilenamePayload(c.windowSize, c.bufferSize, c.toFile);
    var request, response := EncodePdu(Little, 0, FLAG_FILENAME, payload), EncodePdu(Little, 0, FLAG_FILENAME_RESPONSE, [0]);
    EncodedPdu(0, FLAG_FILENAME, payload);
    EncodedPdu(0, FLAG_FILENAME_RESPONSE, [0]);
    FilenameRoundTrip(request, c.windowSize, c.bufferSize, c.toFile, []);
    assert response[HEADER_LEN] == Payload(response)[0];

    assert SenderStep(c, x0.sys.snd, Quiet) == SendFilenameStep(c, x0.sys.snd);
    var x1 := StepOn(c, x0, Client(Quiet, Passed));
    assert x1.flight == Flight(multiset{request}, multiset{}) && request in x1.sys.toServer;
    var e := Serves(request);
    assert ServerStep(x1.sys.srv, e.request) == ListenStep(x1.sys.srv, e.request);
    var x2 := StepOn(c, x1, e);
    assert x2.flight == Flight(multiset{}, multiset{response}) && response in x2.sys.toClient;
    assert x2.sys.srv.phase == RECEIVING && x2.sys.srv.recv == EMPTY && x2.sys.snd == x1.sys.snd;
    assert SenderStep(c, x2.sys.snd, Arrived(response)) == WaitFilenameAckStep(x2.sys.snd, Arrived(response));
    x := StepOn(c, x2, Client(Arrived(response), Passed));
  }

  lemma CleanHasHope(c: Config, x: Strict, k: nat)
    requires c.Ok() && Clean(c, x, k)
    ensures Reach(c, InitialStrict(c), x)
  {
    hide DataInFlight, AnswerInFlight, Leads, Steady;
    Cursors(c, x);
  }

  /** Every file can be transferred without any packet being delivered twice. */
  lemma EveryFileOnce(c: Config) returns (events: seq<Event>)
    requires c.Ok()
    ensures Completes(c, InitialStrict(c), events)
  {
    hide Go, Reach;
    var x := Handshake(c);
    CleanHasHope(c, x, 0);
    var y := Drain(c, InitialStrict(c), x);
    ReachParts(c, InitialStrict(c), y);
    events := LedBy(c, y);
  }

  // ---------------------------------------------------------------- losing the last acknowledgement

  /** The next chunk is sent and in flight alone. */
  lemma SendAlone(c: Config, x: Strict, k: nat) returns (y: Strict)
    requires c.Ok() && Clean(c, x, k) && k < |c.chunks|
    ensures Reach(c, InitialStrict(c), y) && y.sys.srv == x.sys.srv && DataInFlight(y, k)
    ensures exists p :: y.flight == Flight(multiset{p}, multiset{})
    ensures y.sys.snd.mode == PROCESS_ACKS && !y.sys.snd.eofReached
    ensures y.sys.snd.win.lower == k && y.sys.snd.win.current == k + 1 && y.sys.snd.win.size == c.windowSize
  {
    hide ChecksumOk, EncodePdu, FilenamePayload, DataInFlight, AnswerInFlight, Reach;
    CleanHasHope(c, x, k);
    ReachCursors(c, InitialStrict(c), x);
    y := ClientWaits(c, InitialStrict(c), x);
    assert SenderStep(c, x.sys.snd, Quiet) == SendDataStep(c, x.sys.snd, Quiet);
    assert Sends(c, x.sys.snd, Quiet, k);
    assert y.flight == Flight(multiset{DataPdu(k, c.chunks[k])}, multiset{});
  }

  lemma OneChunk(c: Config, x: Strict, k: nat) returns (y: Strict)
    requires c.Ok() && Clean(c, x, k) && k < |c.chunks|
    ensures Clean(c, y, k + 1)
  {
    hide ChecksumOk, EncodePdu, FilenamePayload, DataInFlight, Reach, Steady, Leads;
    var from := InitialStrict(c);
    var s := SendAlone(c, x, k);
    var p, t := TakeData(c, from, s, k);
    ReachCursors(c, from, s);
    ReachCursors(c, from, t);
    OnlyOneMissing(s.sys.srv.recv, c.chunks[k]);
    var q, u := TakeAnswer(c, from, t, FLAG_RR, k + 1);
    y := ClientWaits(c, from, u);
    assert SenderStep(c, u.sys.snd, Quiet) == ProcessAcksStep(u.sys.snd, Quiet);
    ReachParts(c, from, y);
  }

  lemma ReachParts(c: Config, from: Strict, x: Strict)
    requires Reach(c, from, x)
    ensures Leads(c, from, x) && Steady(c, x)
  {
    hide Leads, Steady, Hope;
  }

  lemma OnlyOneMissing(v: RecvView, d: Octets)
    requires v.Ok() && forall k :: k in v.got ==> k <= v.expected
    ensures Receive(v, v.expected, d).expected == v.expected + 1
    ensures Reply(v, v.expected, d) == [RR(v.expected + 1)]
  {
    LeastMissingIsUnique(v.got[v.expected := d], v.expected, v.expected + 1);
  }

  lemma {:induction false} ManyChunks(c: Config, k: nat) returns (x: Strict)
    requires c.Ok() && k <= |c.chunks|
    ensures Clean(c, x, k)
    decreases k
  {
    hide Clean;
    if k == 0 {
      x := Handshake(c);
    } else {
      var y := ManyChunks(c, k - 1);
      x := OneChunk(c, y, k - 1);
    }
  }

  /** These events lead there, and nothing is delivered twice. */
  predicate Reaches(c: Config, events: seq<Event>, x: Strict) {
    Go(c, InitialStrict(c), events) == Some(x)
  }

  /** The last chunk arrives, and the RR for it is dropped. */
  lemma DropLastAnswer(c: Config) returns (events: seq<Event>, x: Strict)
    requires c.Ok() && c.windowSize >= 2 && |c.chunks| >= 1
    ensures Reaches(c, events, x) && Ongoing(x.sys) && AckGone(c, x) && Stuck(c, x.sys.snd)
  {
    hide Go, Clean, Leads, Reach, Steady;
    var n := |c.chunks|;
    var s := ManyChunks(c, n - 1);
    var t := SendAlone(c, s, n - 1);
    ReachParts(c, InitialStrict(c), t);
    ReachCursors(c, InitialStrict(c), t);
    CleanIsReceiving(c, s, n - 1);
    x := DropAnswer(c, t, n - 1);
    events := LedBy(c, x);
  }

  lemma CleanIsReceiving(c: Config, x: Strict, k: nat)
    requires Clean(c, x, k)
    ensures x.sys.srv.phase == RECEIVING && x.sys.srv.recv.expected == k
  {
    hide Leads, Steady;
  }

  lemma LedBy(c: Config, x: Strict) returns (events: seq<Event>)
    requires Leads(c, InitialStrict(c), x)
    ensures Reaches(c, events, x)
  {
    hide Go;
    events :| Go(c, InitialStrict(c), events) == Some(x);
  }

  lemma DropAnswer(c: Config, x: Strict, k: nat) returns (y: Strict)
    requires c.Ok() && Leads(c, InitialStrict(c), x) && Steady(c, x) && DataInFlight(x, k)
    requires exists p :: x.flight == Flight(multiset{p}, multiset{})
    requires x.sys.srv.phase == RECEIVING && x.sys.srv.recv.Ok() && x.sys.srv.recv.expected == k
    requires forall j :: j in x.sys.srv.recv.got ==> j <= k
    ensures Leads(c, InitialStrict(c), y) && Steady(c, y) && y.flight == CLEAR && y.sys.snd == x.sys.snd
    ensures y.sys.srv.phase == RECEIVING && y.sys.srv.recv.expected == k + 1
  {
    hide Usable, EncodePdu, FilenamePayload, Steady, Leads, ServerStep, IsNumber, DataInFlight, Receive, Reply;
    var p := DataStepOf(c, x, k);
    OnlyOneMissing(x.sys.srv.recv, c.chunks[k]);
    y := StepOn(c, x, Host(ServerInput.Packet(p, [], true), Dropped));
  }

  /** Losing one RR is fatal in this way exactly if the window is wider than one and the file is
      not empty: the transfer can no longer be completed although the server has the whole file. */
  lemma AckLossExactly(c: Config)
    requires c.Ok()
    ensures (exists events, x :: Reaches(c, events, x) && Ongoing(x.sys) && AckGone(c, x))
            <==> c.windowSize >= 2 && |c.chunks| >= 1
  {
    hide Reaches;
    if c.windowSize >= 2 && |c.chunks| >= 1 {
      var events, x := DropLastAnswer(c);
    }
  }

  // ---------------------------------------------------------------- losing every packet of a full window

  /** A reachable state in which nothing was acknowledged and nothing is in flight. */
  ghost predicate Unheard(c: Config, x: Strict, sent: nat) {
    && Leads(c, InitialStrict(c), x) && Steady(c, x) && x.flight == CLEAR
    && x.sys.srv.phase == RECEIVING && !x.sys.snd.eofReached
    && x.sys.snd.win.lower == 0 && x.sys.snd.win.current == sent
  }

  lemma {:induction false} SendInVain(c: Config, k: nat) returns (x: Strict)
    requires c.Ok() && k <= c.windowSize <= |c.chunks|
    ensures Unheard(c, x, k) && x.sys.snd.mode == if k < c.windowSize then SEND_DATA else WINDOW_CLOSED
    ensures x.sys.snd.timeoutCount == 0
    decreases k
  {
    hide ChecksumOk, EncodePdu, FilenamePayload, Leads, Traces;
    if k == 0 {
      x := Handshake(c);
      Cursors(c, x);
    } else {
      var s := SendInVain(c, k - 1);
      Cursors(c, s);
      assert SenderStep(c, s.sys.snd, Quiet) == SendDataStep(c, s.sys.snd, Quiet);
      var t := StepOn(c, s, Client(Quiet, Dropped));
      assert SenderStep(c, t.sys.snd, Quiet) == ProcessAcksStep(t.sys.snd, Quiet);
      x := StepOn(c, t, Client(Quiet, Passed));
    }
  }

  lemma {:induction false} ResendInVain(c: Config, tries: nat) returns (x: Strict)
    requires c.Ok() && c.windowSize <= |c.chunks| && tries < MAX_TRIES
    ensures Unheard(c, x, c.windowSize) && x.sys.snd.mode == WINDOW_CLOSED && x.sys.snd.timeoutCount == tries
    decreases tries
  {
    hide ChecksumOk, EncodePdu, FilenamePayload, Leads, Steady;
    if tries == 0 {
      x := SendInVain(c, c.windowSize);
    } else {
      var s := ResendInVain(c, tries - 1);
      assert SenderStep(c, s.sys.snd, Quiet) == WindowClosedStep(s.sys.snd, Quiet);
      x := StepOn(c, s, Client(Quiet, Dropped));
    }
  }

  /** The client can come to its last try with nothing to hope for exactly if the file fills the
      window. */
  lemma LastTryExactly(c: Config)
    requires c.Ok()
    ensures (exists events, x :: Reaches(c, events, x) && Ongoing(x.sys) && LastTryGone(x)) <==> c.windowSize <= |c.chunks|
  {
    hide Go, Steady, Leads;
    if c.windowSize <= |c.chunks| {
      var x := ResendInVain(c, MAX_TRIES - 1);
      var events := LedBy(c, x);
    }
    forall events, x | Reaches(c, events, x) && LastTryGone(x) ensures c.windowSize <= |c.chunks| {
      ReachedIsSteady(c, events, x);
      Cursors(c, x);
    }
  }

  lemma ReachedIsSteady(c: Config, events: seq<Event>, x: Strict)
    requires c.Ok() && Reaches(c, events, x)
    ensures Steady(c, x)
  {
    hide Go, Steady;
    InitialSteady(c);
    GoKeepsSteady(c, InitialStrict(c), events);
  }

  // ---------------------------------------------------------------- when a loss can be fatal

  /** Without duplicates, a running transfer can be taken beyond repair exactly if the file is
      not empty. */
  lemma SingleLossExactly(c: Config)
    requires c.Ok()
    ensures (exists events, x :: Reaches(c, events, x) && Ongoing(x.sys) && !Recoverable(c, x)) <==> |c.chunks| >= 1
  {
    hide Reaches, Recoverable, Steady, Leads;
    if c.windowSize >= 2 && |c.chunks| >= 1 {
      var events, x := DropLastAnswer(c);
      GoneIsLost(c, x);
    } else if |c.chunks| >= 1 {
      var x := ResendInVain(c, MAX_TRIES - 1);
      var events := LedBy(c, x);
      GoneIsLost(c, x);
    }
    forall events, x | Reaches(c, events, x) && Ongoing(x.sys) && !Recoverable(c, x) ensures |c.chunks| >= 1 {
      ReachedIsSteady(c, events, x);
      EmptyIsRecoverable(c, x);
    }
  }

  lemma GoneIsLost(c: Config, x: Strict)
    requires Ongoing(x.sys) && x.sys.snd.win.lower < |c.chunks|
    requires AckGone(c, x) || (x.flight == CLEAR && LastTryGone(x))
    ensures !Recoverable(c, x)
  {
    hide LastGone, RejectGone;
  }

  lemma EmptyIsRecoverable(c: Config, x: Strict)
    requires c.Ok() && Steady(c, x) && Ongoing(x.sys)
    ensures Recoverable(c, x) || |c.chunks| >= 1
  {
    hide Steady, Hope, AnswerInFlight;
    Cursors(c, x);
  }
}

/** The other direction of SingleDelivery: with what is still in flight, and losing nothing more,
    every recoverable transfer is completed. */
module SingleCompletion {
  import opened Bytes
  import opened Checksum
  import opened Pdu
  import opened Channel
  import opened ReceiverSpec
  import opened SenderSpec
  import opened SenderProperties
  import opened ServerSpec
  import opened Transfer
  import opened Recovery
  import opened SingleDelivery

  // ---------------------------------------------------------------- what passes does not destroy hope

  /** The packet passes, and the client does not take an RR while a better one is due. */
  predicate Helpful(x: Strict, e: Event) {
    && e.fate.Passed?
    && (e.Client? && e.input.Arrived? && x.sys.snd.mode == PROCESS_ACKS && IsControl(e.input.p, FLAG_RR) ==>
          ControlNumber(e.input.p) == x.sys.srv.recv.expected)
  }

  lemma ClientKeepsLast(c: Config, x: Strict, i: SenderSpec.Input)
    requires c.Ok() && Steady(c, x) && Allowed(c, x, Client(i, Passed)) && !LastGone(c, x)
    ensures !LastGone(c, StrictNext(c, x, Client(i, Passed)))
  {
    hide SenderStep, DataInFlight, AnswerInFlight, Steady, Sends;
    ClientFlight(c, x, i, Passed);
    EdgesMove(c, x, i, Passed);
  }

  lemma ClientKeepsReject(c: Config, x: Strict, i: SenderSpec.Input)
    requires c.Ok() && Steady(c, x) && Allowed(c, x, Client(i, Passed)) && !RejectGone(c, x)
    ensures !RejectGone(c, StrictNext(c, x, Client(i, Passed)))
  {
    hide ChecksumOk, EncodePdu, FilenamePayload, DataInFlight, AnswerInFlight, Traces;
    ClientFlight(c, x, i, Passed);
    DataSent(c, x.sys.snd, i);
    WhatPhasesMean(c, x.sys);
  }

  /** An SREJ is about a packet that was sent, an RR about no more than was received. */
  lemma AnswerIsKnown(c: Config, s: Sys, p: Octets)
    requires Good(c, s) && p in s.toClient
    ensures IsControl(p, FLAG_SREJ) ==> ControlNumber(p) < s.snd.win.current
  {
    hide Usable, Inv, DataOnWire, Traces;
    ArrivedAnswer(c, s, p);
    if IsControl(p, FLAG_SREJ) {
      var k :| k > ControlNumber(p) && DataOnWire(s, k);
      OnWireWasSent(c, s, k);
    }
  }

  lemma HearingKeepsAck(c: Config, x: Strict, p: Octets)
    requires c.Ok() && Steady(c, x) && Allowed(c, x, Client(Arrived(p), Passed)) && Helpful(x, Client(Arrived(p), Passed))
    requires x.sys.snd.mode == PROCESS_ACKS && !AckGone(c, x)
    ensures !AckGone(c, StrictNext(c, x, Client(Arrived(p), Passed)))
  {
    hide ChecksumOk, EncodePdu, FilenamePayload, DataInFlight, AnswerInFlight, Traces;
    hide FromClient, FromServer, Next, FlightAfter;
    var s, y := x.sys.snd, StrictNext(c, x, Client(Arrived(p), Passed));
    ClientFlight(c, x, Arrived(p), Passed);
    WhatPhasesMean(c, x.sys);
    AnswerIsKnown(c, x.sys, p);
    NextOfClient(c, x.sys, Arrived(p), Passed);
    assert SenderStep(c, s, Arrived(p)) == ProcessAcksStep(s, Arrived(p));
    forall k: nat | k >= s.win.lower && AnswerInFlight(x, FLAG_SREJ, k)
      ensures AnswerInFlight(y, FLAG_SREJ, k) || DataInFlight(y, k)
    {
      assert IsAnswer(p, FLAG_SREJ, k) ==> Sends(c, s, Arrived(p), k);
    }
  }

  lemma NextOfClient(c: Config, s: Sys, i: SenderSpec.Input, fate: Fate)
    requires Enabled(c, s, Client(i, fate))
    ensures Next(c, s, Client(i, fate)).snd == SenderStep(c, s.snd, i).next
  {
    hide SenderStep;
  }

  lemma ClientKeepsAck(c: Config, x: Strict, i: SenderSpec.Input)
    requires c.Ok() && Steady(c, x) && Allowed(c, x, Client(i, Passed)) && Helpful(x, Client(i, Passed)) && !AckGone(c, x)
    ensures !AckGone(c, StrictNext(c, x, Client(i, Passed)))
  {
    hide ChecksumOk, EncodePdu, FilenamePayload, DataInFlight, AnswerInFlight, Traces, FromClient, FromServer;
    if x.sys.snd.mode == PROCESS_ACKS && i.Arrived? {
      HearingKeepsAck(c, x, i.p);
    } else {
      ClientFlight(c, x, i, Passed);
      WhatPhasesMean(c, x.sys);
    }
  }

  /** The last try begins with a timeout that resends the lowest packet. */
  lemma LastTryBegins(c: Config, snd: Sender, i: SenderSpec.Input)
    requires c.Ok() && SenderOk(c, snd)
    ensures var snd' := SenderStep(c, snd, i).next;
            snd'.mode == WINDOW_CLOSED && snd'.timeoutCount == MAX_TRIES - 1 ==> Sends(c, snd, i, snd.win.lower)
  {
    hide Usable, EncodePdu, FilenamePayload, WindowFaithful, IsAnswer;
  }

  lemma ClientKeepsLastTry(c: Config, x: Strict, i: SenderSpec.Input)
    requires c.Ok() && Steady(c, x) && Allowed(c, x, Client(i, Passed)) && !LastTryGone(x)
    ensures !LastTryGone(StrictNext(c, x, Client(i, Passed)))
  {
    hide SenderStep, DataInFlight, Traces, FromClient, FromServer, Sends, ReceiverOk;
    ClientFlight(c, x, i, Passed);
    LastTryBegins(c, x.sys.snd, i);
    WhatPhasesMean(c, x.sys);
  }

  lemma HostKeepsLast(c: Config, x: Strict, i: ServerInput)
    requires c.Ok() && Steady(c, x) && Allowed(c, x, Host(i, Passed)) && !LastGone(c, x)
    ensures !LastGone(c, StrictNext(c, x, Host(i, Passed)))
  {
    hide ChecksumOk, EncodePdu, FilenamePayload, DataInFlight, AnswerInFlight, Good, ServerStep, FirstMissing;
    HostFlight(c, x, i, Passed);
    HostReceives(x.sys.srv, i);
    Cursors(c, x);
    PhaseInData(c, x);
  }

  /** A server that is not receiving has not started, or has everything, or has returned. */
  lemma PhaseInData(c: Config, x: Strict)
    requires Steady(c, x)
    ensures x.sys.srv.phase == LISTENING ==> x.sys.snd.win.current == 0
    ensures x.sys.srv.phase.EOF_LOOP? ==> x.sys.srv.recv.expected == |c.chunks|
  {
    hide Usable, EncodePdu, FilenamePayload, Traces;
    WhatPhasesMean(c, x.sys);
  }

  lemma HostKeepsReject(c: Config, x: Strict, i: ServerInput)
    requires c.Ok() && Steady(c, x) && Allowed(c, x, Host(i, Passed)) && !RejectGone(c, x)
    ensures !RejectGone(c, StrictNext(c, x, Host(i, Passed)))
  {
    hide ChecksumOk, EncodePdu, FilenamePayload, DataInFlight, AnswerInFlight, Traces, ServerStep, FirstMissing;
    HostFlight(c, x, i, Passed);
    HostReceives(x.sys.srv, i);
    WhatPhasesMean(c, x.sys);
    if x.sys.srv.phase == RECEIVING && IsData(i) {
      OneReply(x.sys.srv.recv, SequenceNum(i.p), Payload(i.p));
      var v, v' := x.sys.srv.recv, StrictNext(c, x, Host(i, Passed)).sys.srv.recv;
      assert v'.HasGap() ==> Answers(x.sys.srv, i, FLAG_SREJ, v'.expected) || (v.HasGap() && v'.expected == v.expected);
    }
  }

  lemma HostKeepsAck(c: Config, x: Strict, i: ServerInput)
    requires c.Ok() && Steady(c, x) && Allowed(c, x, Host(i, Passed)) && !AckGone(c, x)
    ensures !AckGone(c, StrictNext(c, x, Host(i, Passed)))
  {
    hide ChecksumOk, EncodePdu, FilenamePayload, DataInFlight, AnswerInFlight, Traces, ServerStep, FirstMissing;
    HostFlight(c, x, i, Passed);
    HostReceives(x.sys.srv, i);
    WhatPhasesMean(c, x.sys);
    if x.sys.srv.phase == RECEIVING && IsData(i) {
      LastReply(c, x, i);
    }
  }

  /** Whoever has everything answers every data packet with the last RR. */
  lemma LastReply(c: Config, x: Strict, i: ServerInput)
    requires c.Ok() && Steady(c, x) && Allowed(c, x, Host(i, Passed)) && x.sys.srv.phase == RECEIVING && IsData(i)
    ensures ServerStep(x.sys.srv, i).next.recv.expected == |c.chunks| ==> Answers(x.sys.srv, i, FLAG_RR, |c.chunks|)
  {
    hide ChecksumOk, EncodePdu, FilenamePayload, Traces, ServerStep, Answers, FromServer;
    HostReceives(x.sys.srv, i);
    assert FromClient(c, x.sys.snd, i.p);
    FullAnswersRR(x.sys.srv, i, |c.chunks|);
  }

  lemma FullAnswersRR(srv: Server, i: ServerInput, n: nat)
    requires srv.phase == RECEIVING && IsData(i) && srv.recv.Ok() && SequenceNum(i.p) < n
    requires forall k :: k in srv.recv.got ==> k < n
    ensures Receive(srv.recv, SequenceNum(i.p), Payload(i.p)).expected == n ==> Answers(srv, i, FLAG_RR, n)
  {
    hide ChecksumOk, FirstMissing;
    var v, k, d := srv.recv, SequenceNum(i.p), Payload(i.p);
    OneReply(v, k, d);
    var v' := Receive(v, k, d);
    assert v'.expected == n ==> !v'.HasGap();
    assert k > v.expected ==> v.expected !in v'.got && k in v'.got && v'.expected == FirstMissing(v'.got, v.expected);
  }

  /** Only what comes behind a rejected gap gets no answer. */
  lemma NoReply(srv: Server, i: ServerInput)
    requires srv.phase == RECEIVING && IsData(i) && srv.recv.Ok() && ServerStep(srv, i).out == []
    ensures SequenceNum(i.p) > srv.recv.expected && srv.recv.HasGap()
    ensures var v := ServerStep(srv, i).next.recv;
            v.expected == srv.recv.expected && v.HasGap()
  {
    hide ChecksumOk, EncodePdu, FirstMissing;
    OneReply(srv.recv, SequenceNum(i.p), Payload(i.p));
    assert ServerStep(srv, i) == DataStep(srv, i.p);
    SilentReply(srv.recv, SequenceNum(i.p), Payload(i.p));
  }

  lemma SilentReply(v: RecvView, seqNum: nat, payload: Octets)
    requires v.Ok() && Reply(v, seqNum, payload) == []
    ensures Receive(v, seqNum, payload).expected == v.expected && Receive(v, seqNum, payload).HasGap()
  {
    assert seqNum in Receive(v, seqNum, payload).got;
  }

  lemma HostKeepsLastTry(c: Config, x: Strict, i: ServerInput)
    requires c.Ok() && Steady(c, x) && Allowed(c, x, Host(i, Passed)) && !LastTryGone(x)
    ensures !LastTryGone(StrictNext(c, x, Host(i, Passed)))
  {
    hide ChecksumOk, EncodePdu, FilenamePayload, DataInFlight, AnswerInFlight, Traces, ServerStep, FirstMissing;
    HostFlight(c, x, i, Passed);
    HostReceives(x.sys.srv, i);
    WhatPhasesMean(c, x.sys);
    if LastTryGone(StrictNext(c, x, Host(i, Passed))) && x.sys.srv.phase == RECEIVING && IsData(i) {
      NoReply(x.sys.srv, i);
    }
  }

  /** Hope is lost only by losing a packet, or by taking an RR too early. */
  lemma HelpfulKeepsHope(c: Config, x: Strict, e: Event)
    requires c.Ok() && Steady(c, x) && Hope(c, x) && Allowed(c, x, e) && Helpful(x, e)
    ensures Hope(c, StrictNext(c, x, e))
  {
    hide Steady, Allowed, StrictNext, LastGone, RejectGone, AckGone, LastTryGone, Helpful;
    match e
    case Client(i, fate) =>
      HelpfulPasses(x, e);
      ClientKeepsLast(c, x, i);
      ClientKeepsReject(c, x, i);
      ClientKeepsAck(c, x, i);
      ClientKeepsLastTry(c, x, i);
    case Host(i, fate) =>
      HelpfulPasses(x, e);
      HostKeepsLast(c, x, i);
      HostKeepsReject(c, x, i);
      HostKeepsAck(c, x, i);
      HostKeepsLastTry(c, x, i);
  }

  lemma HelpfulPasses(x: Strict, e: Event)
    requires Helpful(x, e)
    ensures e.fate == Passed
  {
  }

  // ---------------------------------------------------------------- steps towards completion

  ghost predicate Leads(c: Config, x: Strict, y: Strict) {
    exists events :: Go(c, x, events) == Some(y)
  }

  lemma LeadsOn(c: Config, x: Strict, y: Strict, e: Event)
    requires Leads(c, x, y) && Allowed(c, y, e)
    ensures Leads(c, x, StrictNext(c, y, e))
  {
    hide Allowed, StrictNext;
    var events :| Go(c, x, events) == Some(y);
    GoAppend(c, x, events, [e]);
    assert [e][1..] == [];
    assert Go(c, StrictNext(c, y, e), []) == Some(StrictNext(c, y, e));
    assert Go(c, x, events + [e]) == Some(StrictNext(c, y, e));
  }

  lemma LeadsHere(c: Config, x: Strict)
    ensures Leads(c, x, x)
  {
    assert Go(c, x, []) == Some(x);
  }

  ghost predicate Reach(c: Config, from: Strict, x: Strict) {
    Leads(c, from, x) && Steady(c, x) && Hope(c, x)
  }

  lemma ReachOn(c: Config, from: Strict, x: Strict, e: Event)
    requires c.Ok() && Reach(c, from, x) && Allowed(c, x, e) && Helpful(x, e)
    ensures Reach(c, from, StrictNext(c, x, e))
  {
    hide Steady, Hope, StrictNext, Allowed, Leads, Helpful;
    LeadsOn(c, from, x, e);
    NextKeepsSteady(c, x, e);
    HelpfulKeepsHope(c, x, e);
  }

  /** The client finds nothing; what it sends passes. */
  lemma ClientWaits(c: Config, from: Strict, x: Strict) returns (y: Strict)
    requires c.Ok() && Reach(c, from, x)
    ensures Reach(c, from, y) && Allowed(c, x, Client(Quiet, Passed)) && y == StrictNext(c, x, Client(Quiet, Passed))
    ensures y.sys.snd == SenderStep(c, x.sys.snd, Quiet).next && y.sys.srv == x.sys.srv
    ensures y.flight.toClient == x.flight.toClient
    ensures forall k: nat :: DataInFlight(y, k) <==> DataInFlight(x, k) || Sends(c, x.sys.snd, Quiet, k)
    ensures forall flag, n: nat :: AnswerInFlight(y, flag, n) <==> AnswerInFlight(x, flag, n)
  {
    hide SenderStep, Hope, Leads, Sends, DataInFlight, AnswerInFlight, Inv, Traces;
    var e := Client(Quiet, Passed);
    ClientStepKeeps(c, x.sys, Quiet);
    y := StrictNext(c, x, e);
    ReachOn(c, from, x, e);
    ClientFlight(c, x, Quiet, Passed);
  }

  /** The client polls and finds a packet, which it takes unless it is in WINDOW_CLOSED. */
  lemma ClientHears(c: Config, from: Strict, x: Strict, q: Octets) returns (y: Strict)
    requires c.Ok() && Reach(c, from, x) && q in x.flight.toClient
    requires x.sys.snd.mode == PROCESS_ACKS && IsControl(q, FLAG_RR) ==> ControlNumber(q) == x.sys.srv.recv.expected
    ensures Reach(c, from, y) && Allowed(c, x, Client(Arrived(q), Passed))
    ensures y == StrictNext(c, x, Client(Arrived(q), Passed))
    ensures y.sys.snd == SenderStep(c, x.sys.snd, Arrived(q)).next && y.sys.srv == x.sys.srv
    ensures forall k: nat :: DataInFlight(y, k) <==> DataInFlight(x, k) || Sends(c, x.sys.snd, Arrived(q), k)
  {
    hide SenderStep, Hope, Leads, Sends, DataInFlight, AnswerInFlight, Inv, Traces;
    var e := Client(Arrived(q), Passed);
    ClientStepKeeps(c, x.sys, Arrived(q));
    y := StrictNext(c, x, e);
    ReachOn(c, from, x, e);
    ClientFlight(c, x, Arrived(q), Passed);
  }

  function Serves(p: Octets): Event {
    Host(ServerInput.Packet(p, [], true), Passed)
  }

  lemma DataStepOf(c: Config, x: Strict, k: nat) returns (p: Octets)
    requires c.Ok() && Steady(c, x) && x.sys.srv.phase == RECEIVING && DataInFlight(x, k)
    ensures p in x.flight.toServer && IsNumber(p, k) && |p| >= HEADER_LEN && SequenceNum(p) == k
    ensures k < |c.chunks| && Payload(p) == c.chunks[k] && IsData(ServerInput.Packet(p, [], true))
    ensures ServerStep(x.sys.srv, ServerInput.Packet(p, [], true)) == DataStep(x.sys.srv, p)
    ensures Allowed(c, x, Serves(p))
  {
    hide ChecksumOk, EncodePdu, FilenamePayload, Receive, Reply, Traces, SenderOk;
    p :| p in x.flight.toServer && IsNumber(p, k);
    assert FromClient(c, x.sys.snd, p);
  }

  /** The server takes data packet `k`, and its answer passes. */
  lemma TakeData(c: Config, from: Strict, x: Strict, k: nat) returns (p: Octets, y: Strict)
    requires c.Ok() && Reach(c, from, x) && x.sys.srv.phase == RECEIVING && DataInFlight(x, k)
    ensures p in x.flight.toServer && Allowed(c, x, Serves(p)) && y == StrictNext(c, x, Serves(p))
    ensures k < |c.chunks| && Reach(c, from, y) && y.sys.snd == x.sys.snd
    ensures y.sys.srv.phase == RECEIVING && y.sys.srv.recv == Receive(x.sys.srv.recv, k, c.chunks[k])
    ensures forall r :: r in Reply(x.sys.srv.recv, k, c.chunks[k]) ==>
              AnswerInFlight(y, if r.RR? then FLAG_RR else FLAG_SREJ, r.n)
    ensures Reply(x.sys.srv.recv, k, c.chunks[k]) != [] ==> y.flight.toClient != multiset{}
    ensures y.flight.toServer == x.flight.toServer - multiset{p}
  {
    hide Usable, EncodePdu, FilenamePayload, Hope, Leads, AnswerInFlight, Receive, Reply;
    hide Steady, DataInFlight, ServerStep, IsNumber;
    p := DataStepOf(c, x, k);
    var i := ServerInput.Packet(p, [], true);
    y := StrictNext(c, x, Serves(p));
    ReachOn(c, from, x, Serves(p));
    HostFlight(c, x, i, Passed);
    forall r | r in Reply(x.sys.srv.recv, k, c.chunks[k])
      ensures AnswerInFlight(y, if r.RR? then FLAG_RR else FLAG_SREJ, r.n)
    {
      assert Answers(x.sys.srv, i, if r.RR? then FLAG_RR else FLAG_SREJ, r.n);
    }
  }

  /** What a reachable state says about the two windows. */
  ghost predicate InBounds(c: Config, x: Strict) {
    var w, v := x.sys.snd.win, x.sys.srv.recv;
    && w.lower <= v.expected <= w.current <= |c.chunks|
    && w.size == c.windowSize && w.current <= w.lower + c.windowSize && x.sys.snd.filePos == w.current
    && v.Ok() && (forall k :: k in v.got ==> k < w.current)
    && (x.sys.snd.eofReached ==> w.current == |c.chunks| && w.IsOpen())
    && (x.sys.snd.mode == PROCESS_ACKS || x.sys.snd.mode == SEND_DATA ==> x.sys.snd.timeoutCount == 0)
    && (x.sys.snd.mode == WINDOW_CLOSED ==> !w.IsOpen() && x.sys.snd.timeoutCount < MAX_TRIES)
  }

  lemma Cursors(c: Config, x: Strict)
    requires c.Ok() && Steady(c, x)
    ensures InBounds(c, x)
  {
    hide Usable, EncodePdu, FilenamePayload, Traces;
    WhatPhasesMean(c, x.sys);
  }

  lemma FlightNumbers(c: Config, x: Strict)
    requires c.Ok() && Steady(c, x)
    ensures forall k: nat :: DataInFlight(x, k) ==> k < x.sys.snd.win.current
    ensures forall k: nat :: AnswerInFlight(x, FLAG_SREJ, k) ==> k < x.sys.snd.win.current
  {
    hide Usable, EncodePdu, FilenamePayload, Traces, Good;
    forall k: nat | DataInFlight(x, k) ensures k < x.sys.snd.win.current {
      assert DataOnWire(x.sys, k);
      OnWireWasSent(c, x.sys, k);
    }
    forall k: nat | AnswerInFlight(x, FLAG_SREJ, k) ensures k < x.sys.snd.win.current {
      var p :| p in x.flight.toClient && IsAnswer(p, FLAG_SREJ, k);
      AnswerIsKnown(c, x.sys, p);
    }
  }

  /** A client at a closed window sees that something has arrived. */
  lemma Sees(c: Config, from: Strict, x: Strict) returns (y: Strict)
    requires c.Ok() && Reach(c, from, x) && x.sys.snd.mode == WINDOW_CLOSED && x.flight.toClient != multiset{}
    ensures Reach(c, from, y) && y.sys.srv == x.sys.srv && y.flight == x.flight
    ensures y.sys.snd == x.sys.snd.(mode := PROCESS_ACKS, timeoutCount := 0)
  {
    hide ChecksumOk, EncodePdu, FilenamePayload, Reach, Sends;
    var q :| q in x.flight.toClient;
    y := ClientHears(c, from, x, q);
    assert SenderStep(c, x.sys.snd, Arrived(q)) == WindowClosedStep(x.sys.snd, Arrived(q));
  }

  /** While the server is there, a client at a closed window hears something before it gives up:
      if not what is in flight, then the answer to something that is, or to its own timeout. */
  lemma LeaveClosed(c: Config, from: Strict, x: Strict) returns (y: Strict)
    requires c.Ok() && Reach(c, from, x) && x.sys.snd.mode == WINDOW_CLOSED && x.sys.srv.phase == RECEIVING
    ensures Reach(c, from, y) && y.sys.snd.mode == PROCESS_ACKS && y.sys.srv.phase == RECEIVING
    ensures y.sys.srv.recv.expected >= x.sys.srv.recv.expected && y.sys.snd.win == x.sys.snd.win
  {
    hide ChecksumOk, EncodePdu, FilenamePayload, Leads, Steady, DataInFlight, Receive, LastGone, RejectGone, AckGone;
    ReachCursors(c, from, x);
    var s, v := x, x.sys.srv.recv;
    if x.flight.toClient == multiset{} {
      var k: nat := x.sys.snd.win.lower;
      if x.sys.snd.timeoutCount < MAX_TRIES - 1 {
        s := ClientWaits(c, from, x);
        assert SenderStep(c, x.sys.snd, Quiet) == WindowClosedStep(x.sys.snd, Quiet);
        assert Sends(c, x.sys.snd, Quiet, k);
      } else {
        k :| DataInFlight(x, k) && !(k > v.expected && v.HasGap());
      }
      AnswersAll(v, k);
      var p;
      p, s := TakeData(c, from, s, k);
    }
    y := Sees(c, from, s);
  }

  lemma AnswersAll(v: RecvView, k: nat)
    requires v.Ok() && !(k > v.expected && v.HasGap())
    ensures forall d :: Reply(v, k, d) != [] && Receive(v, k, d).expected >= v.expected
  {
    forall d: Octets ensures Reply(v, k, d) != [] && Receive(v, k, d).expected >= v.expected {
      ReceiveKeepsOk(v, k, d);
    }
  }

  lemma ReachCursors(c: Config, from: Strict, x: Strict)
    requires c.Ok() && Reach(c, from, x)
    ensures InBounds(c, x)
  {
    hide Steady, Hope, Leads;
    Cursors(c, x);
  }

  /** A client in its data states gets to process acknowledgements, unless all is done. */
  lemma ToAcks(c: Config, from: Strict, x: Strict) returns (y: Strict)
    requires c.Ok() && Reach(c, from, x) && InData(x.sys.snd)
    requires x.sys.srv.phase == RECEIVING || x.flight.toClient != multiset{} || x.sys.snd.win.lower == |c.chunks|
    ensures Reach(c, from, y) && (y.sys.snd.mode == PROCESS_ACKS || AllAcknowledged(c, y.sys.snd))
    ensures y.sys.srv.phase == x.sys.srv.phase && y.sys.srv.recv.expected >= x.sys.srv.recv.expected
    ensures x.flight.toClient != multiset{} ==> y.flight.toClient == x.flight.toClient && y.sys.srv == x.sys.srv
    ensures y.sys.snd.win.lower == x.sys.snd.win.lower
  {
    hide ChecksumOk, EncodePdu, FilenamePayload, Reach, DataInFlight, AnswerInFlight, Sends;
    ReachCursors(c, from, x);
    y := x;
    if x.sys.snd.mode == SEND_DATA {
      y := ClientWaits(c, from, x);
      assert SenderStep(c, x.sys.snd, Quiet) == SendDataStep(c, x.sys.snd, Quiet);
    }
    if y.sys.snd.mode == WINDOW_CLOSED {
      ReachCursors(c, from, y);
      if y.flight.toClient != multiset{} {
        y := Sees(c, from, y);
      } else {
        y := LeaveClosed(c, from, y);
      }
    }
  }

  /** The client takes an RR or SREJ that is in flight. */
  lemma TakeAnswer(c: Config, from: Strict, x: Strict, flag: byte, n: nat) returns (q: Octets, y: Strict)
    requires c.Ok() && Reach(c, from, x) && x.sys.snd.mode == PROCESS_ACKS
    requires (flag == FLAG_RR && n == x.sys.srv.recv.expected) || flag == FLAG_SREJ
    requires AnswerInFlight(x, flag, n)
    ensures Reach(c, from, y) && y.sys.srv == x.sys.srv && y.sys.snd.mode == PROCESS_ACKS
    ensures y.sys.snd.win == if flag == FLAG_RR then x.sys.snd.win.AckRR(n) else x.sys.snd.win
    ensures flag == FLAG_SREJ && x.sys.snd.win.lower <= n < x.sys.snd.win.current ==> DataInFlight(y, n)
    ensures q in x.flight.toClient && Allowed(c, x, Client(Arrived(q), Passed))
    ensures y == StrictNext(c, x, Client(Arrived(q), Passed))
    ensures flag == FLAG_RR ==> y.flight == Flight(x.flight.toServer, x.flight.toClient - multiset{q})
  {
    hide ChecksumOk, EncodePdu, FilenamePayload, Reach, DataInFlight;
    q :| q in x.flight.toClient && IsAnswer(q, flag, n);
    y := ClientHears(c, from, x, q);
    assert SenderStep(c, x.sys.snd, Arrived(q)) == ProcessAcksStep(x.sys.snd, Arrived(q));
    assert flag == FLAG_SREJ && x.sys.snd.win.lower <= n < x.sys.snd.win.current ==> Sends(c, x.sys.snd, Arrived(q), n);
  }

  /** The client reads and sends one more chunk. */
  lemma SendNext(c: Config, from: Strict, x: Strict) returns (y: Strict)
    requires c.Ok() && Reach(c, from, x) && x.sys.snd.mode == PROCESS_ACKS
    requires x.sys.snd.win.IsOpen() && x.sys.snd.win.current < |c.chunks|
    ensures Reach(c, from, y) && y.sys.srv == x.sys.srv && y.flight.toClient == x.flight.toClient
    ensures y.sys.snd.mode == PROCESS_ACKS && !y.sys.snd.eofReached
    ensures y.sys.snd.win.lower == x.sys.snd.win.lower && y.sys.snd.win.current == x.sys.snd.win.current + 1
    ensures DataInFlight(y, x.sys.snd.win.current)
    ensures exists p :: y.flight.toServer == x.flight.toServer + multiset{p}
  {
    hide ChecksumOk, EncodePdu, FilenamePayload, DataInFlight, AnswerInFlight, Reach;
    ReachCursors(c, from, x);
    var s := ClientWaits(c, from, x);
    assert SenderStep(c, x.sys.snd, Quiet) == ProcessAcksStep(x.sys.snd, Quiet);
    y := ClientWaits(c, from, s);
    assert SenderStep(c, s.sys.snd, Quiet) == SendDataStep(c, s.sys.snd, Quiet);
    assert Sends(c, s.sys.snd, Quiet, x.sys.snd.win.current);
    var pdu := DataPdu(s.sys.snd.win.current, c.chunks[s.sys.snd.filePos]);
    assert y.flight.toServer == x.flight.toServer + multiset{pdu};
  }

  /** If the file goes on to fill the window, the client fills it, and the timeout brings the
      lowest packet back. */
  lemma {:induction false} FillAndResend(c: Config, from: Strict, x: Strict) returns (y: Strict)
    requires c.Ok() && Reach(c, from, x) && x.sys.snd.mode == PROCESS_ACKS
    requires x.sys.snd.win.lower + c.windowSize <= |c.chunks|
    ensures Reach(c, from, y) && y.sys.srv == x.sys.srv && InData(y.sys.snd) && DataInFlight(y, x.sys.snd.win.lower)
    ensures y.sys.snd.win.lower == x.sys.snd.win.lower
    decreases x.sys.snd.win.lower + c.windowSize - x.sys.snd.win.current
  {
    hide ChecksumOk, EncodePdu, FilenamePayload, DataInFlight, AnswerInFlight, Reach;
    ReachCursors(c, from, x);
    if x.sys.snd.win.IsOpen() {
      var s := SendNext(c, from, x);
      y := FillAndResend(c, from, s);
    } else {
      var s := ClientWaits(c, from, x);
      assert SenderStep(c, x.sys.snd, Quiet) == ProcessAcksStep(x.sys.snd, Quiet);
      y := ClientWaits(c, from, s);
      assert SenderStep(c, s.sys.snd, Quiet) == WindowClosedStep(s.sys.snd, Quiet);
      assert Sends(c, s.sys.snd, Quiet, x.sys.snd.win.lower);
    }
  }

  /** A packet behind the expected one provokes the SREJ that brings the expected one back. */
  lemma Provoke(c: Config, from: Strict, x: Strict, k: nat) returns (y: Strict)
    requires c.Ok() && Reach(c, from, x) && x.sys.snd.mode == PROCESS_ACKS && x.sys.srv.phase == RECEIVING
    requires !x.sys.srv.recv.HasGap() && DataInFlight(x, k) && x.sys.srv.recv.expected < k
    requires x.sys.srv.recv.expected < x.sys.snd.win.current
    ensures Reach(c, from, y) && y.sys.srv.phase == RECEIVING && InData(y.sys.snd)
    ensures y.sys.srv.recv.expected == x.sys.srv.recv.expected && DataInFlight(y, x.sys.srv.recv.expected)
  {
    hide ChecksumOk, EncodePdu, FilenamePayload, DataInFlight, AnswerInFlight, Reach;
    var e := x.sys.srv.recv.expected;
    ReachCursors(c, from, x);
    var p, s := TakeData(c, from, x, k);
    assert SREJ(e) in Reply(x.sys.srv.recv, k, c.chunks[k]);
    var q;
    q, y := TakeAnswer(c, from, s, FLAG_SREJ, e);
  }

  /** The lowest packet is resent, and the client learns everything that the server has. */
  lemma CatchUp(c: Config, from: Strict, x: Strict) returns (y: Strict)
    requires c.Ok() && Reach(c, from, x) && x.sys.snd.mode == PROCESS_ACKS && x.sys.srv.phase == RECEIVING
    requires x.sys.snd.win.lower + c.windowSize <= |c.chunks| && x.sys.snd.win.lower < x.sys.srv.recv.expected
    ensures Reach(c, from, y) && y.sys.srv.phase == RECEIVING && y.sys.srv.recv == x.sys.srv.recv
    ensures y.sys.snd.mode == PROCESS_ACKS && y.sys.snd.win.lower == x.sys.srv.recv.expected
  {
    hide ChecksumOk, EncodePdu, FilenamePayload, DataInFlight, Reach;
    var e, k := x.sys.srv.recv.expected, x.sys.snd.win.lower;
    var s1 := FillAndResend(c, from, x);
    var p, s2 := TakeData(c, from, s1, k);
    assert RR(e) in Reply(x.sys.srv.recv, k, c.chunks[k]);
    var s3 := HearAnything(c, from, s2, e);
    ReachCursors(c, from, s3);
    var q;
    q, y := TakeAnswer(c, from, s3, FLAG_RR, e);
  }

  /** With an RR in flight the client gets to process it. */
  lemma HearAnything(c: Config, from: Strict, x: Strict, n: nat) returns (y: Strict)
    requires c.Ok() && Reach(c, from, x) && InData(x.sys.snd) && AnswerInFlight(x, FLAG_RR, n)
    requires x.sys.snd.win.lower < |c.chunks|
    ensures Reach(c, from, y) && y.sys.srv == x.sys.srv && AnswerInFlight(y, FLAG_RR, n)
    ensures y.sys.snd.mode == PROCESS_ACKS
  {
    hide ChecksumOk, EncodePdu, FilenamePayload, Reach;
    y := ToAcks(c, from, x);
  }

  /** With everything acknowledged but the end of the file not read yet, the client reads it. */
  lemma ReadEof(c: Config, from: Strict, x: Strict) returns (y: Strict)
    requires c.Ok() && Reach(c, from, x) && x.sys.snd.mode == PROCESS_ACKS && x.sys.snd.win.lower == |c.chunks|
    ensures Reach(c, from, y) && AllAcknowledged(c, y.sys.snd)
  {
    hide ChecksumOk, EncodePdu, FilenamePayload, Reach, DataInFlight, AnswerInFlight;
    ReachCursors(c, from, x);
    if x.sys.snd.eofReached {
      return x;
    }
    var s := ClientWaits(c, from, x);
    assert SenderStep(c, x.sys.snd, Quiet) == ProcessAcksStep(x.sys.snd, Quiet);
    y := ClientWaits(c, from, s);
    assert SenderStep(c, s.sys.snd, Quiet) == SendDataStep(c, s.sys.snd, Quiet);
  }

  /** The RR for the whole file is in flight, or was taken: the server is no longer needed. */
  lemma HearLast(c: Config, from: Strict, x: Strict) returns (y: Strict)
    requires c.Ok() && Reach(c, from, x) && InData(x.sys.snd)
    requires x.sys.snd.win.lower == |c.chunks| || AnswerInFlight(x, FLAG_RR, |c.chunks|)
    ensures Reach(c, from, y) && AllAcknowledged(c, y.sys.snd)
  {
    hide ChecksumOk, EncodePdu, FilenamePayload, Reach, DataInFlight, AnswerInFlight;
    var n := |c.chunks|;
    ReachCursors(c, from, x);
    var s := x;
    if x.sys.snd.win.lower == n {
      s := ToAcks(c, from, x);
      if AllAcknowledged(c, s.sys.snd) {
        return s;
      }
    } else {
      s := HearAnything(c, from, x, n);
      ReachCursors(c, from, s);
      LastIsExpected(c, from, s);
      var q;
      q, s := TakeAnswer(c, from, s, FLAG_RR, n);
      ReachCursors(c, from, s);
    }
    y := ReadEof(c, from, s);
  }

  lemma LastIsExpected(c: Config, from: Strict, x: Strict)
    requires c.Ok() && Reach(c, from, x) && AnswerInFlight(x, FLAG_RR, |c.chunks|)
    ensures x.sys.srv.recv.expected == |c.chunks|
  {
    hide ChecksumOk, EncodePdu, FilenamePayload, Hope, Leads, Inv, Traces;
    var p :| p in x.flight.toClient && IsAnswer(p, FLAG_RR, |c.chunks|);
    assert AnswerOnWire(x.sys, FLAG_RR, |c.chunks|);
    WhatPhasesMean(c, x.sys);
  }

  /** The server has everything and can still be made to say so. */
  lemma AskForLast(c: Config, from: Strict, x: Strict) returns (y: Strict)
    requires c.Ok() && Reach(c, from, x) && x.sys.snd.mode == PROCESS_ACKS && x.sys.srv.phase == RECEIVING
    requires x.sys.srv.recv.expected == |c.chunks| && x.sys.snd.win.lower < |c.chunks|
    ensures Reach(c, from, y) && InData(y.sys.snd) && AnswerInFlight(y, FLAG_RR, |c.chunks|)
  {
    hide ChecksumOk, EncodePdu, FilenamePayload, Leads, Steady, DataInFlight, AnswerInFlight;
    hide LastGone, RejectGone, LastTryGone;
    var n := |c.chunks|;
    ReachCursors(c, from, x);
    ReachFlight(c, from, x);
    var s := x;
    var k: nat := x.sys.snd.win.lower;
    if AnswerInFlight(x, FLAG_RR, n) {
      return x;
    } else if x.sys.snd.win.lower + c.windowSize <= n {
      s := FillAndResend(c, from, x);
    } else if j: nat :| DataInFlight(x, j) {
      k := j;
    } else {
      k :| k >= x.sys.snd.win.lower && AnswerInFlight(x, FLAG_SREJ, k);
      var q;
      q, s := TakeAnswer(c, from, x, FLAG_SREJ, k);
    }
    var p;
    ReachFlight(c, from, s);
    ReachCursors(c, from, s);
    p, y := TakeData(c, from, s, k);
    assert RR(n) in Reply(s.sys.srv.recv, k, c.chunks[k]);
  }

  lemma ReachFlight(c: Config, from: Strict, x: Strict)
    requires c.Ok() && Reach(c, from, x)
    ensures forall k: nat :: DataInFlight(x, k) ==> k < x.sys.snd.win.current
    ensures forall k: nat :: AnswerInFlight(x, FLAG_SREJ, k) ==> k < x.sys.snd.win.current
  {
    hide Steady, Hope, Leads, DataInFlight, AnswerInFlight;
    FlightNumbers(c, x);
  }

  /** While there is hope, the packet that the server waits for can be put in flight. */
  lemma ExpectedInFlight(c: Config, from: Strict, x: Strict) returns (y: Strict)
    requires c.Ok() && Reach(c, from, x) && x.sys.snd.mode == PROCESS_ACKS && x.sys.srv.phase == RECEIVING
    requires x.sys.srv.recv.expected < |c.chunks|
    ensures Reach(c, from, y) && y.sys.srv.phase == RECEIVING && InData(y.sys.snd)
    ensures y.sys.srv.recv.expected == x.sys.srv.recv.expected && DataInFlight(y, x.sys.srv.recv.expected)
    decreases x.sys.srv.recv.expected - x.sys.snd.win.lower
  {
    hide ChecksumOk, EncodePdu, FilenamePayload, Leads, Steady, DataInFlight, AnswerInFlight, LastTryGone, AckGone;
    var w, e, n := x.sys.snd.win, x.sys.srv.recv.expected, |c.chunks|;
    ReachCursors(c, from, x);
    if DataInFlight(x, e) {
      y := x;
    } else if w.lower + c.windowSize <= n && w.lower < e {
      var s := CatchUp(c, from, x);
      y := ExpectedInFlight(c, from, s);
    } else if e == w.current {
      y := SendNext(c, from, x);
    } else if w.lower + c.windowSize <= n {
      y := FillAndResend(c, from, x);
    } else if AnswerInFlight(x, FLAG_SREJ, e) {
      var q;
      q, y := TakeAnswer(c, from, x, FLAG_SREJ, e);
    } else if w.current < n {
      var s := SendNext(c, from, x);
      y := Provoke(c, from, s, w.current);
    } else {
      assert n - 1 in x.sys.srv.recv.got ==> n - 1 != e;
      y := Provoke(c, from, x, n - 1);
    }
  }

  /** From any hopeful state in which both ends are at it, the whole file gets across. */
  lemma {:induction false} Drain(c: Config, from: Strict, x: Strict) returns (y: Strict)
    requires c.Ok() && Reach(c, from, x) && InData(x.sys.snd) && x.sys.srv.phase == RECEIVING
    ensures Reach(c, from, y) && AllAcknowledged(c, y.sys.snd)
    decreases |c.chunks| - x.sys.srv.recv.expected
  {
    hide ChecksumOk, EncodePdu, FilenamePayload, Reach, DataInFlight, AnswerInFlight;
    ReachCursors(c, from, x);
    var s := ToAcks(c, from, x);
    ReachCursors(c, from, s);
    if AllAcknowledged(c, s.sys.snd) {
      y := s;
    } else if s.sys.snd.win.lower == |c.chunks| {
      y := HearLast(c, from, s);
    } else if s.sys.srv.recv.expected == |c.chunks| {
      var u := AskForLast(c, from, s);
      y := HearLast(c, from, u);
    } else {
      var e := s.sys.srv.recv.expected;
      var u := ExpectedInFlight(c, from, s);
      var p, v := TakeData(c, from, u, e);
      ReachCursors(c, from, u);
      ReachCursors(c, from, v);
      y := Drain(c, from, v);
    }
  }

  // ---------------------------------------------------------------- exactly the recoverable states

  lemma RecoverableHasHope(c: Config, x: Strict)
    requires c.Ok() && Steady(c, x) && Recoverable(c, x) && !AllAcknowledged(c, x.sys.snd)
    ensures Reach(c, x, x)
  {
    hide ChecksumOk, EncodePdu, FilenamePayload, DataInFlight, Leads, Steady;
    LeadsHere(c, x);
    Cursors(c, x);
    if AnswerInFlight(x, FLAG_RR, |c.chunks|) {
      var p :| p in x.flight.toClient && IsAnswer(p, FLAG_RR, |c.chunks|);
      SteadyAnswer(c, x, p);
    }
  }

  lemma SteadyAnswer(c: Config, x: Strict, p: Octets)
    requires Steady(c, x) && p in x.flight.toClient && IsAnswer(p, FLAG_RR, |c.chunks|)
    ensures x.sys.srv.recv.expected == |c.chunks|
  {
    hide ChecksumOk, EncodePdu, FilenamePayload, Inv, Traces;
    assert AnswerOnWire(x.sys, FLAG_RR, |c.chunks|);
    WhatPhasesMean(c, x.sys);
  }

  lemma RecoverableRecovers(c: Config, x: Strict) returns (y: Strict)
    requires c.Ok() && Steady(c, x) && Recoverable(c, x)
    ensures Leads(c, x, y) && AllAcknowledged(c, y.sys.snd)
  {
    hide Steady, Leads, Hope, AnswerInFlight;
    if AllAcknowledged(c, x.sys.snd) {
      LeadsHere(c, x);
      return x;
    }
    RecoverableHasHope(c, x);
    if x.sys.snd.win.lower == |c.chunks| || AnswerInFlight(x, FLAG_RR, |c.chunks|) {
      y := HearLast(c, x, x);
    } else {
      y := Drain(c, x, x);
    }
  }

  /** The events can happen, and then the whole file is acknowledged. */
  predicate Completes(c: Config, x: Strict, events: seq<Event>) {
    Go(c, x, events).Some? && AllAcknowledged(c, Go(c, x, events).value.sys.snd)
  }

  /** The exact condition for a network that delivers nothing twice: after any such run, once past
      the handshake, some continuation of the same kind has the whole file acknowledged if and
      only if the state is Recoverable. */
  lemma RecoverableExactly(c: Config, events: seq<Event>)
    requires c.Ok() && Go(c, InitialStrict(c), events).Some?
    requires !InHandshake(Go(c, InitialStrict(c), events).value.sys.snd)
    ensures var x := Go(c, InitialStrict(c), events).value;
            (exists more :: Completes(c, x, more)) <==> Recoverable(c, x)
  {
    hide Go, Steady, Recoverable, InHandshake, AllAcknowledged;
    InitialSteady(c);
    GoKeepsSteady(c, InitialStrict(c), events);
    var x := Go(c, InitialStrict(c), events).value;
    if Recoverable(c, x) {
      var y := RecoverableRecovers(c, x);
      var more :| Go(c, x, more) == Some(y);
      assert Completes(c, x, more);
    }
    forall more | Completes(c, x, more) ensures Recoverable(c, x) {
      NotLost(c, x, more);
    }
  }

  lemma NotLost(c: Config, x: Strict, more: seq<Event>)
    requires c.Ok() && Steady(c, x) && !InHandshake(x.sys.snd)
    requires Completes(c, x, more)
    ensures Recoverable(c, x)
  {
    hide Go, Steady, Recoverable, InHandshake, AllAcknowledged;
    AcknowledgedIsRecoverable(c, Go(c, x, more).value);
    if !Recoverable(c, x) {
      LostRun(c, x, more);
    }
  }

  lemma AcknowledgedIsRecoverable(c: Config, x: Strict)
    requires AllAcknowledged(c, x.sys.snd)
    ensures Recoverable(c, x)
  {
  }
}

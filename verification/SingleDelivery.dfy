/** Runs in which the network never duplicates: every packet that is received is gone. What such
    a network can take from a transfer for good. */
module SingleDelivery {
  import opened Bytes
  import opened Checksum
  import opened Pdu
  import opened Channel
  import opened ReceiverSpec
  import opened SenderSpec
  import opened SenderProperties
  import opened ServerSpec
  import opened Transfer
  import Progress
  import opened Recovery

  /** The packets that have been sent and not been received or lost. */
  datatype Flight = Flight(toServer: multiset<Octets>, toClient: multiset<Octets>)

  const CLEAR := Flight(multiset{}, multiset{})

  /** A transfer, with all that was ever sent, and what of it is still in flight. */
  datatype Strict = Strict(sys: Sys, flight: Flight)

  function InitialStrict(c: Config): Strict {
    Strict(InitialSys(c), CLEAR)
  }

  /** SEND_FILENAME, SEND_DATA and SEND_EOF do not poll, and WINDOW_CLOSED leaves the packet that
      it sees in the socket. */
  predicate Receives(s: Sender) {
    s.mode == WAIT_FILENAME_ACK || s.mode == PROCESS_ACKS || s.mode == WAIT_EOF_ACK
  }

  function Launched(net: multiset<Octets>, out: seq<Octets>, fate: Fate): multiset<Octets>
    requires CanCarry(out, fate)
  {
    if out == [] then net
    else
      match Arrives(fate, out[0])
      case None => net
      case Some(q) => net + multiset{q}
  }

  predicate Allowed(c: Config, x: Strict, e: Event) {
    && Enabled(c, x.sys, e)
    && match e
       case Client(i, _) => i.Arrived? ==> i.p in x.flight.toClient
       case Host(i, _) => i.Packet? ==> i.p in x.flight.toServer
  }

  function FlightAfter(c: Config, x: Strict, e: Event): Flight
    requires Allowed(c, x, e)
  {
    var Flight(toServer, toClient) := x.flight;
    match e
    case Client(i, fate) =>
      Flight(Launched(toServer, SenderStep(c, x.sys.snd, i).out, fate),
             if i.Arrived? && Receives(x.sys.snd) then toClient - multiset{i.p} else toClient)
    case Host(i, fate) =>
      Flight(if i.Packet? && x.sys.srv.phase != FINISHED then toServer - multiset{i.p} else toServer,
             Launched(toClient, ServerStep(x.sys.srv, i).out, fate))
  }

  function StrictNext(c: Config, x: Strict, e: Event): Strict
    requires Allowed(c, x, e)
  {
    Strict(Next(c, x.sys, e), FlightAfter(c, x, e))
  }

  /** The state after further events, if each can happen when its turn comes. */
  function Go(c: Config, x: Strict, events: seq<Event>): Option<Strict>
    decreases events
  {
    if events == [] then Some(x)
    else if Allowed(c, x, events[0]) then Go(c, StrictNext(c, x, events[0]), events[1..])
    else None
  }

  lemma {:induction false} GoAppend(c: Config, x: Strict, a: seq<Event>, b: seq<Event>)
    ensures Go(c, x, a + b) == match Go(c, x, a) case None => None case Some(y) => Go(c, y, b)
    decreases a
  {
    hide Allowed, StrictNext;
    if a == [] {
      assert a + b == b;
    } else {
      assert (a + b)[0] == a[0] && (a + b)[1..] == a[1..] + b;
      if Allowed(c, x, a[0]) {
        GoAppend(c, StrictNext(c, x, a[0]), a[1..], b);
      }
    }
  }

  // ---------------------------------------------------------------- what holds in every such run

  /** What is in flight was sent. */
  ghost predicate Airborne(x: Strict) {
    && (forall p :: p in x.flight.toServer ==> p in x.sys.toServer)
    && (forall p :: p in x.flight.toClient ==> p in x.sys.toClient)
  }

  ghost predicate Steady(c: Config, x: Strict) {
    Good(c, x.sys) && Airborne(x)
  }

  lemma NextKeepsSteady(c: Config, x: Strict, e: Event)
    requires c.Ok() && Steady(c, x) && Allowed(c, x, e)
    ensures Steady(c, StrictNext(c, x, e))
  {
    hide Good, Enabled, Next, FlightAfter, Airborne;
    NextKeepsGood(c, x.sys, e);
    StaysAirborne(c, x, e);
  }

  lemma StaysAirborne(c: Config, x: Strict, e: Event)
    requires Airborne(x) && Allowed(c, x, e)
    ensures Airborne(StrictNext(c, x, e))
  {
    hide SenderStep, ServerStep;
  }

  /** Every run of this kind is a run of Transfer, so all that holds of those holds here. */
  lemma {:induction false} GoKeepsSteady(c: Config, x: Strict, events: seq<Event>)
    requires c.Ok() && Steady(c, x) && Go(c, x, events).Some?
    ensures Steady(c, Go(c, x, events).value)
    ensures Progress.Continue(c, x.sys, events) == Some(Go(c, x, events).value.sys)
    decreases events
  {
    hide Steady, FlightAfter, Enabled, Next;
    if events != [] {
      NextKeepsSteady(c, x, events[0]);
      GoKeepsSteady(c, StrictNext(c, x, events[0]), events[1..]);
    }
  }

  lemma InitialSteady(c: Config)
    requires c.Ok()
    ensures Steady(c, InitialStrict(c))
  {
    InitialGood(c);
  }

  // ---------------------------------------------------------------- what is in flight

  predicate DataInFlight(x: Strict, k: nat) {
    exists p | p in x.flight.toServer :: IsNumber(p, k)
  }

  predicate AnswerInFlight(x: Strict, flag: byte, n: nat) {
    exists p | p in x.flight.toClient :: IsAnswer(p, flag, n)
  }

  /** A step of the client: what it sends is added if it passes, what it receives is gone. */
  lemma ClientFlight(c: Config, x: Strict, i: SenderSpec.Input, fate: Fate)
    requires c.Ok() && Steady(c, x) && Allowed(c, x, Client(i, fate))
    ensures var y := StrictNext(c, x, Client(i, fate));
            && y.sys.srv == x.sys.srv && y.flight.toClient <= x.flight.toClient
            && (forall k: nat :: DataInFlight(x, k) ==> DataInFlight(y, k))
            && (forall k: nat :: DataInFlight(y, k) ==> DataInFlight(x, k) || Sends(c, x.sys.snd, i, k))
            && (fate.Passed? ==> forall k: nat :: Sends(c, x.sys.snd, i, k) ==> DataInFlight(y, k))
    ensures var y := StrictNext(c, x, Client(i, fate));
            forall flag, n: nat ::
              && (AnswerInFlight(y, flag, n) ==> AnswerInFlight(x, flag, n))
              && (AnswerInFlight(x, flag, n) ==>
                    AnswerInFlight(y, flag, n) || (i.Arrived? && Receives(x.sys.snd) && IsAnswer(i.p, flag, n)))
  {
    hide SenderStep, Usable, Encoded, FromClient, SenderOk, ReceiverOk, NotBefore, Sends, Traces, IsAnswer;
    var y, out := StrictNext(c, x, Client(i, fate)), SenderStep(c, x.sys.snd, i).out;
    ClientStepKeeps(c, x.sys, i);
    if out != [] {
      OnlyOriginalUsable(out[0], fate);
    }
    forall k: nat ensures DataInFlight(y, k) ==> DataInFlight(x, k) || Sends(c, x.sys.snd, i, k) {
      ClientOut(c, x.sys, i, k);
    }
    if fate.Passed? {
      forall k: nat ensures Sends(c, x.sys.snd, i, k) ==> DataInFlight(y, k) {
        ClientOut(c, x.sys, i, k);
      }
    }
  }

  /** A step of the server. */
  lemma HostFlight(c: Config, x: Strict, i: ServerInput, fate: Fate)
    requires c.Ok() && Steady(c, x) && Allowed(c, x, Host(i, fate))
    ensures var y := StrictNext(c, x, Host(i, fate));
            && y.sys.snd == x.sys.snd && x.flight.toClient <= y.flight.toClient
            && (forall k: nat :: DataInFlight(y, k) ==> DataInFlight(x, k))
            && (forall k: nat :: DataInFlight(x, k) ==> 
                  DataInFlight(y, k) || (i.Packet? && IsNumber(i.p, k) && x.sys.srv.phase != FINISHED))
            && (fate.Passed? && ServerStep(x.sys.srv, i).out != [] ==> y.flight.toClient != multiset{})
    ensures var y := StrictNext(c, x, Host(i, fate));
            forall flag, n: nat :: flag == FLAG_RR || flag == FLAG_SREJ ==>
              && (AnswerInFlight(x, flag, n) ==> AnswerInFlight(y, flag, n))
              && (AnswerInFlight(y, flag, n) ==> AnswerInFlight(x, flag, n) || Answers(x.sys.srv, i, flag, n))
              && (fate.Passed? && Answers(x.sys.srv, i, flag, n) ==> AnswerInFlight(y, flag, n))
  {
    hide ServerStep, Usable, Encoded, FromServer, SenderOk, ReceiverOk, NotBefore, Answers, Traces, IsNumber;
    var y, out := StrictNext(c, x, Host(i, fate)), ServerStep(x.sys.srv, i).out;
    ServerStepKeeps(c, x.sys, i);
    if out != [] {
      OnlyOriginalUsable(out[0], fate);
    }
    forall flag, n: nat | flag == FLAG_RR || flag == FLAG_SREJ
      ensures (AnswerInFlight(y, flag, n) ==> AnswerInFlight(x, flag, n) || Answers(x.sys.srv, i, flag, n))
           && (fate.Passed? && Answers(x.sys.srv, i, flag, n) ==> AnswerInFlight(y, flag, n))
    {
      HostOut(c, x.sys, i, flag, n);
    }
  }

  // ---------------------------------------------------------------- what cannot be repaired

  /** The last chunk was sent and lost, and the window is wider than one. */
  predicate LastGone(c: Config, x: Strict) {
    && x.sys.snd.win.current == |c.chunks| >= 1 && c.windowSize >= 2
    && |c.chunks| - 1 !in x.sys.srv.recv.got && !DataInFlight(x, |c.chunks| - 1)
  }

  /** The expected packet was lost, and so was the one SREJ for it, and the rest of the file fits
      in the window behind it. */
  predicate RejectGone(c: Config, x: Strict) {
    var e := x.sys.srv.recv.expected;
    && e < x.sys.snd.win.current && |c.chunks| < e + c.windowSize && x.sys.srv.recv.HasGap()
    && !DataInFlight(x, e) && !AnswerInFlight(x, FLAG_SREJ, e)
  }

  /** The server has everything, the RR that says so was lost, and nothing will make it send
      another: no data is in flight, nor an SREJ for a packet that the client still holds, and the
      rest of the file fits in the window. */
  ghost predicate AckGone(c: Config, x: Strict) {
    && x.sys.srv.recv.expected == |c.chunks|
    && x.sys.snd.win.lower < |c.chunks| < x.sys.snd.win.lower + c.windowSize
    && (forall k: nat :: !DataInFlight(x, k))
    && !AnswerInFlight(x, FLAG_RR, |c.chunks|)
    && (forall k: nat :: k >= x.sys.snd.win.lower ==> !AnswerInFlight(x, FLAG_SREJ, k))
  }

  /** The client waits for the last time, and neither is anything in flight to it, nor anything
      that the server would answer. */
  ghost predicate LastTryGone(x: Strict) {
    var v := x.sys.srv.recv;
    && x.sys.snd.mode == WINDOW_CLOSED && x.sys.snd.timeoutCount == MAX_TRIES - 1
    && x.flight.toClient == multiset{}
    && forall k: nat :: DataInFlight(x, k) ==> k > v.expected && v.HasGap()
  }

  ghost predicate Hope(c: Config, x: Strict) {
    !LastGone(c, x) && !RejectGone(c, x) && !AckGone(c, x) && !LastTryGone(x)
  }

  /** What is still possible when nothing is delivered twice. */
  ghost predicate Recoverable(c: Config, x: Strict) {
    || AllAcknowledged(c, x.sys.snd)
    || (&& InData(x.sys.snd)
        && (|| x.sys.snd.win.lower == |c.chunks|
            || AnswerInFlight(x, FLAG_RR, |c.chunks|)
            || (x.sys.srv.phase == RECEIVING && Hope(c, x))))
  }

  // ---------------------------------------------------------------- what is lost stays lost

  /** The client's numbers move up only: `lower` by an RR, `current` by sending. */
  lemma EdgesMove(c: Config, x: Strict, i: SenderSpec.Input, fate: Fate)
    requires c.Ok() && Steady(c, x) && Allowed(c, x, Client(i, fate))
    ensures var w, w' := x.sys.snd.win, StrictNext(c, x, Client(i, fate)).sys.snd.win;
            && w.lower <= w'.lower <= |c.chunks| && w.current <= w'.current <= |c.chunks|
            && (w'.current != w.current ==> w'.current == w.current + 1 && Sends(c, x.sys.snd, i, w.current))
            && (w'.lower == |c.chunks| ==> w.lower == |c.chunks| || AnswerInFlight(x, FLAG_RR, |c.chunks|))
  {
    hide SenderStep, AnswerInFlight, Sends, Inv, Traces;
    LowerMoves(c, x, i);
    CurrentMoves(c, x.sys, i);
    WhatPhasesMean(c, x.sys);
    NextKeepsGood(c, x.sys, Client(i, fate));
    WhatPhasesMean(c, Next(c, x.sys, Client(i, fate)));
  }

  lemma LowerMoves(c: Config, x: Strict, i: SenderSpec.Input)
    requires c.Ok() && Steady(c, x) && (i.Arrived? ==> i.p in x.flight.toClient)
    ensures var w, w' := x.sys.snd.win, SenderStep(c, x.sys.snd, i).next.win;
            && w.lower <= w'.lower
            && (w'.lower == |c.chunks| ==> w.lower == |c.chunks| || AnswerInFlight(x, FLAG_RR, |c.chunks|))
  {
    hide ChecksumOk, EncodePdu, FilenamePayload, Traces, FromClient, FromServer;
    WhatPhasesMean(c, x.sys);
    if x.sys.snd.mode == PROCESS_ACKS && i.Arrived? {
      ArrivedAnswer(c, x.sys, i.p);
    }
  }

  lemma CurrentMoves(c: Config, s: Sys, i: SenderSpec.Input)
    requires c.Ok() && Good(c, s)
    ensures var w, w' := s.snd.win, SenderStep(c, s.snd, i).next.win;
            && w.current <= w'.current
            && (w'.current != w.current ==> w'.current == w.current + 1 && Sends(c, s.snd, i, w.current))
  {
    hide ChecksumOk, EncodePdu, FilenamePayload, Traces, FromClient, FromServer, ReceiverOk;
    DataSent(c, s.snd, i);
  }

  /** The last chunk, once sent, is not sent again through a window wider than one. */
  lemma LastIsNotResent(c: Config, x: Strict, i: SenderSpec.Input)
    requires c.Ok() && Steady(c, x) && (i.Arrived? ==> i.p in x.sys.toClient)
    requires x.sys.snd.win.current == |c.chunks| >= 1 && c.windowSize >= 2
    ensures !Sends(c, x.sys.snd, i, |c.chunks| - 1)
  {
    hide ChecksumOk, EncodePdu, FilenamePayload, DataOnWire, FromClient, FromServer;
    DataSent(c, x.sys.snd, i);
    var last := |c.chunks| - 1;
    if Sends(c, x.sys.snd, i, last) && x.sys.snd.mode == PROCESS_ACKS {
      ArrivedAnswer(c, x.sys, i.p);
      var k :| k > last && DataOnWire(x.sys, k);
      OnWireWasSent(c, x.sys, k);
    }
  }

  lemma ClientKeepsLastGone(c: Config, x: Strict, i: SenderSpec.Input, fate: Fate)
    requires c.Ok() && Steady(c, x) && Allowed(c, x, Client(i, fate)) && LastGone(c, x)
    ensures LastGone(c, StrictNext(c, x, Client(i, fate)))
  {
    hide SenderStep, DataInFlight, AnswerInFlight, Good, Sends;
    ClientFlight(c, x, i, fate);
    EdgesMove(c, x, i, fate);
    LastIsNotResent(c, x, i);
  }

  lemma ClientKeepsRejectGone(c: Config, x: Strict, i: SenderSpec.Input, fate: Fate)
    requires c.Ok() && Steady(c, x) && Allowed(c, x, Client(i, fate)) && InData(x.sys.snd) && RejectGone(c, x)
    ensures RejectGone(c, StrictNext(c, x, Client(i, fate)))
  {
    hide ChecksumOk, EncodePdu, FilenamePayload, DataInFlight, DataOnWire;
    ClientFlight(c, x, i, fate);
    DataSent(c, x.sys.snd, i);
    WhatPhasesMean(c, x.sys);
  }

  /** Without an SREJ for a held packet, a client that has sent everything and whose window is
      open sends no data. */
  lemma NothingToSend(c: Config, x: Strict, i: SenderSpec.Input, fate: Fate)
    requires c.Ok() && Steady(c, x) && Allowed(c, x, Client(i, fate)) && AckGone(c, x)
    ensures forall k: nat :: !Sends(c, x.sys.snd, i, k)
  {
    hide ChecksumOk, EncodePdu, FilenamePayload, DataInFlight, Traces, FromClient, FromServer;
    WhatPhasesMean(c, x.sys);
    DataSent(c, x.sys.snd, i);
    forall k: nat ensures !Sends(c, x.sys.snd, i, k) {
      assert Sends(c, x.sys.snd, i, k) && x.sys.snd.mode == PROCESS_ACKS ==> AnswerInFlight(x, FLAG_SREJ, k);
    }
  }

  lemma ClientKeepsAckGone(c: Config, x: Strict, i: SenderSpec.Input, fate: Fate)
    requires c.Ok() && Steady(c, x) && Allowed(c, x, Client(i, fate)) && AckGone(c, x)
    ensures AckGone(c, StrictNext(c, x, Client(i, fate)))
  {
    hide SenderStep, DataInFlight, AnswerInFlight, Steady, Sends;
    ClientFlight(c, x, i, fate);
    NothingToSend(c, x, i, fate);
    EdgesMove(c, x, i, fate);
  }

  /** At its last try, without anything to hear, the client gives up. */
  lemma ClientGivesUp(c: Config, x: Strict, i: SenderSpec.Input, fate: Fate)
    requires c.Ok() && Steady(c, x) && Allowed(c, x, Client(i, fate)) && LastTryGone(x)
    ensures StrictNext(c, x, Client(i, fate)).sys.snd.mode == DONE
    ensures x.sys.snd.win.lower < x.sys.snd.win.current
  {
    hide EncodePdu, Usable, FilenamePayload, Traces;
  }

  lemma ClientInDataStaysLost(c: Config, x: Strict, i: SenderSpec.Input, fate: Fate)
    requires c.Ok() && Steady(c, x) && Allowed(c, x, Client(i, fate)) && InData(x.sys.snd) && !Recoverable(c, x)
    ensures !Recoverable(c, StrictNext(c, x, Client(i, fate)))
  {
    hide ChecksumOk, EncodePdu, FilenamePayload, DataInFlight, AnswerInFlight, LastGone, RejectGone, AckGone, LastTryGone;
    hide Traces, DataOnWire, AnswerOnWire, Sends;
    ClientFlight(c, x, i, fate);
    WhatPhasesMean(c, x.sys);
    var y := StrictNext(c, x, Client(i, fate));
    NextKeepsGood(c, x.sys, Client(i, fate));
    WhatPhasesMean(c, y.sys);
    EdgesMove(c, x, i, fate);
    if LastGone(c, x) {
      ClientKeepsLastGone(c, x, i, fate);
    }
    if RejectGone(c, x) {
      ClientKeepsRejectGone(c, x, i, fate);
    }
    if AckGone(c, x) {
      ClientKeepsAckGone(c, x, i, fate);
    }
    if LastTryGone(x) {
      ClientGivesUp(c, x, i, fate);
    }
  }

  lemma ClientStaysLost(c: Config, x: Strict, i: SenderSpec.Input, fate: Fate)
    requires c.Ok() && Steady(c, x) && Allowed(c, x, Client(i, fate)) && !InHandshake(x.sys.snd) && !Recoverable(c, x)
    ensures !Recoverable(c, StrictNext(c, x, Client(i, fate)))
  {
    hide EncodePdu, FilenamePayload, ChecksumOk, Hope, AnswerInFlight, Traces;
    if InData(x.sys.snd) {
      ClientInDataStaysLost(c, x, i, fate);
    } else {
      WhatPhasesMean(c, x.sys);
    }
  }

  /** A data packet that is given to the server was in flight. */
  lemma TakenFromFlight(x: Strict, i: ServerInput)
    requires IsData(i) && i.p in x.flight.toServer
    ensures DataInFlight(x, SequenceNum(i.p))
  {
    hide ChecksumOk;
    assert IsNumber(i.p, SequenceNum(i.p));
  }

  lemma HostKeepsLastGone(c: Config, x: Strict, i: ServerInput, fate: Fate)
    requires c.Ok() && Steady(c, x) && Allowed(c, x, Host(i, fate)) && LastGone(c, x)
    ensures LastGone(c, StrictNext(c, x, Host(i, fate)))
  {
    hide ChecksumOk, EncodePdu, FilenamePayload, ServerStep, DataInFlight, Answers, FirstMissing, Good;
    HostFlight(c, x, i, fate);
    HostReceives(x.sys.srv, i);
    if IsData(i) {
      TakenFromFlight(x, i);
    }
  }

  lemma HostKeepsRejectGone(c: Config, x: Strict, i: ServerInput, fate: Fate)
    requires c.Ok() && Steady(c, x) && Allowed(c, x, Host(i, fate)) && RejectGone(c, x)
    ensures RejectGone(c, StrictNext(c, x, Host(i, fate)))
  {
    hide ChecksumOk, ServerStep, DataInFlight, AnswerInFlight, Receive, Reply, Good;
    HostFlight(c, x, i, fate);
    HostReceives(x.sys.srv, i);
    SteadyRecvOk(c, x);
    if IsData(i) {
      TakenFromFlight(x, i);
      GapStays(x.sys.srv.recv, SequenceNum(i.p), Payload(i.p));
    }
  }

  lemma SteadyRecvOk(c: Config, x: Strict)
    requires Steady(c, x)
    ensures x.sys.srv.recv.Ok()
  {
    hide Traces;
    InvRecvOk(c, x.sys);
  }

  /** Without the expected packet, a gap that was rejected stays, and is not rejected again. */
  lemma GapStays(v: RecvView, seqNum: nat, payload: Octets)
    requires v.Ok() && v.HasGap() && seqNum != v.expected
    ensures var v' := Receive(v, seqNum, payload);
            v'.expected == v.expected && v'.HasGap()
    ensures forall r :: r in Reply(v, seqNum, payload) ==> r.RR?
  {
    var later :| later in v.got && later > v.expected;
    assert later in Receive(v, seqNum, payload).got;
  }

  lemma HostKeepsAckGone(c: Config, x: Strict, i: ServerInput, fate: Fate)
    requires c.Ok() && Steady(c, x) && Allowed(c, x, Host(i, fate)) && AckGone(c, x)
    ensures AckGone(c, StrictNext(c, x, Host(i, fate)))
  {
    hide ChecksumOk, EncodePdu, FilenamePayload, ServerStep, DataInFlight, AnswerInFlight, Reply;
    HostFlight(c, x, i, fate);
    HostReceives(x.sys.srv, i);
    if IsData(i) {
      TakenFromFlight(x, i);
    }
  }

  /** What is behind a gap that was rejected is kept without an answer. */
  lemma KeptInSilence(c: Config, x: Strict, i: ServerInput)
    requires c.Ok() && Steady(c, x) && (i.Packet? ==> i.p in x.flight.toServer) && LastTryGone(x)
    ensures ServerStep(x.sys.srv, i).out == []
    ensures var v, v' := x.sys.srv.recv, ServerStep(x.sys.srv, i).next.recv;
            v'.expected == v.expected && (v.HasGap() ==> v'.HasGap())
  {
    hide ChecksumOk, EncodePdu, FilenamePayload, DataInFlight, Traces;
    HostReceives(x.sys.srv, i);
    WhatPhasesMean(c, x.sys);
    assert i.Packet? ==> FromClient(c, x.sys.snd, i.p);
    if IsData(i) {
      TakenFromFlight(x, i);
      OneReply(x.sys.srv.recv, SequenceNum(i.p), Payload(i.p));
    }
  }

  lemma HostKeepsLastTryGone(c: Config, x: Strict, i: ServerInput, fate: Fate)
    requires c.Ok() && Steady(c, x) && Allowed(c, x, Host(i, fate)) && LastTryGone(x)
    ensures LastTryGone(StrictNext(c, x, Host(i, fate)))
  {
    hide ServerStep, DataInFlight, Good;
    HostFlight(c, x, i, fate);
    KeptInSilence(c, x, i);
  }

  /** Only a server that has received everything says so. */
  lemma LastAnswer(c: Config, x: Strict, i: ServerInput, fate: Fate)
    requires c.Ok() && Steady(c, x) && Allowed(c, x, Host(i, fate)) && Answers(x.sys.srv, i, FLAG_RR, |c.chunks|)
    ensures x.sys.srv.phase == RECEIVING && Hope(c, x)
  {
    hide ServerStep, DataInFlight, AnswerInFlight, ChecksumOk, EncodePdu, FilenamePayload, Traces, FirstMissing, Receive;
    var y := StrictNext(c, x, Host(i, fate));
    HostReceives(x.sys.srv, i);
    OneReply(x.sys.srv.recv, SequenceNum(i.p), Payload(i.p));
    assert y.sys.srv.recv.expected == |c.chunks|;
    TakenFromFlight(x, i);
    NextKeepsSteady(c, x, Host(i, fate));
    WhatPhasesMean(c, y.sys);
    if LastGone(c, x) {
      HostKeepsLastGone(c, x, i, fate);
    }
    if RejectGone(c, x) {
      HostKeepsRejectGone(c, x, i, fate);
    }
  }

  lemma HostStaysLost(c: Config, x: Strict, i: ServerInput, fate: Fate)
    requires c.Ok() && Steady(c, x) && Allowed(c, x, Host(i, fate)) && !InHandshake(x.sys.snd) && !Recoverable(c, x)
    ensures !Recoverable(c, StrictNext(c, x, Host(i, fate)))
  {
    hide EncodePdu, FilenamePayload, ChecksumOk, AnswerInFlight, Traces, LastGone, RejectGone, AckGone, LastTryGone;
    hide ServerStep, Answers, SenderOk, ReceiverOk;
    HostFlight(c, x, i, fate);
    HostPhases(x.sys.srv, i);
    WhatPhasesMean(c, x.sys);
    if Answers(x.sys.srv, i, FLAG_RR, |c.chunks|) {
      LastAnswer(c, x, i, fate);
    }
    if LastGone(c, x) {
      HostKeepsLastGone(c, x, i, fate);
    }
    if RejectGone(c, x) {
      HostKeepsRejectGone(c, x, i, fate);
    }
    if AckGone(c, x) {
      HostKeepsAckGone(c, x, i, fate);
    }
    if LastTryGone(x) {
      HostKeepsLastTryGone(c, x, i, fate);
    }
  }

  /** Once past the handshake: from a state that is not Recoverable no event leads to one that is. */
  lemma LostForever(c: Config, x: Strict, e: Event)
    requires c.Ok() && Steady(c, x) && Allowed(c, x, e) && !InHandshake(x.sys.snd) && !Recoverable(c, x)
    ensures var y := StrictNext(c, x, e);
            !InHandshake(y.sys.snd) && !Recoverable(c, y)
  {
    hide Steady, Recoverable, Enabled, Next, InHandshake, FlightAfter;
    NeverBack(c, x.sys, e);
    match e
    case Client(i, fate) => ClientStaysLost(c, x, i, fate);
    case Host(i, fate) => HostStaysLost(c, x, i, fate);
  }

  lemma {:induction false} LostRun(c: Config, x: Strict, events: seq<Event>)
    requires c.Ok() && Steady(c, x) && Go(c, x, events).Some? && !InHandshake(x.sys.snd) && !Recoverable(c, x)
    ensures !Recoverable(c, Go(c, x, events).value)
    decreases events
  {
    hide Steady, Recoverable, Allowed, StrictNext, InHandshake;
    if events != [] {
      LostForever(c, x, events[0]);
      NextKeepsSteady(c, x, events[0]);
      LostRun(c, StrictNext(c, x, events[0]), events[1..]);
    }
  }
}

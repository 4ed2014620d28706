/** What resending the lowest packet achieves, and how runs are continued. */
module Progress {
  import opened Bytes
  import opened Pdu
  import opened Checksum
  import opened Channel
  import opened SenderWindow
  import opened ReceiverSpec
  import opened Receiver
  import opened SenderSpec
  import opened ServerSpec
  import opened Transfer

  /** The two windows of a transfer. */
  datatype Ends = Ends(win: WindowView, recv: RecvView)

  /** What every reachable state of a transfer says about its windows (ReachableInStep). */
  ghost predicate InStep(c: Config, x: Ends) {
    && x.win.Ok() && x.recv.Ok()
    && x.win.lower <= x.recv.expected <= x.win.current <= |c.chunks|
    && (forall k :: k in x.recv.got ==> k < x.win.current)
    && (forall k :: k in x.win.held ==> x.win.held[k] == DataPdu(k, c.chunks[k]))
  }

  /** One round, as a composition of getLowestWindowPacket, bufferProcessPDU and processRR: the
      lowest held PDU and the answer to it are delivered. The client makes such a round only
      while its window is closed (ClosedRound); Outcome says what whole runs can achieve. */
  function Round(x: Ends): Ends
  {
    match x.win.Packet(x.win.lower)
    case None => x
    case Some(pdu) =>
      if |pdu| < HEADER_LEN then x
      else
        var c := Reply(x.recv, SequenceNum(pdu), Payload(pdu));
        Ends(if c != [] && c[0].RR? then x.win.AckRR(c[0].n) else x.win,
             Receive(x.recv, SequenceNum(pdu), Payload(pdu)))
  }

  function Rounds(x: Ends, n: nat): Ends
    decreases n
  {
    if n == 0 then x else Rounds(Round(x), n - 1)
  }

  lemma ReachableInStep(c: Config, events: seq<Event>)
    requires c.Ok() && Play(c, events).Some?
    ensures var s := Play(c, events).value;
            InStep(c, Ends(s.snd.win, s.srv.recv))
  {
    hide EncodePdu, Usable;
    var s := Play(c, events).value;
    PlayKeepsInv(c, events);
    ExpectedWasSent(c, s.snd, s.srv);
  }

  /** A round always gets an answer. It is an RR that slides the window, except when the
      expected packet closed a gap with another gap behind it: then the number expected rises. */
  lemma RoundEffect(c: Config, x: Ends)
    requires c.Ok() && InStep(c, x) && x.win.lower < x.win.current
    ensures var y := Round(x);
            && InStep(c, y) && y.win.current == x.win.current
            && y.win.lower >= x.win.lower && y.recv.expected > x.win.lower
            && (y.win.lower > x.win.lower || x.win.lower == x.recv.expected)
  {
    hide EncodePdu;
    var k := x.win.lower;
    assert k in x.win.held;
    EncodedPdu(ToU32(k), FLAG_DATA, c.chunks[k]);
    var d := c.chunks[k];
    ReceiveKeepsOk(x.recv, k, d);
    var v := Receive(x.recv, k, d);
    if v.expected > 0 {
      assert v.expected - 1 in v.got;
    }
    AckRRKeepsOk(x.win, v.expected);
  }

  /** Two rounds strictly raise the lower edge. */
  lemma TwoRoundsSlide(c: Config, x: Ends)
    requires c.Ok() && InStep(c, x) && x.win.lower < x.win.current
    ensures var y := Round(Round(x));
            InStep(c, y) && y.win.current == x.win.current && y.win.lower > x.win.lower
  {
    hide Round, InStep;
    RoundEffect(c, x);
    var y := Round(x);
    if y.win.lower == x.win.lower {
      RoundEffect(c, y);
    } else {
      RoundNeverLoses(c, y);
    }
  }

  lemma RoundNeverLoses(c: Config, x: Ends)
    requires c.Ok() && InStep(c, x)
    ensures var y := Round(x);
            InStep(c, y) && y.win.current == x.win.current && y.win.lower >= x.win.lower
  {
    hide EncodePdu;
    if x.win.lower < x.win.current {
      RoundEffect(c, x);
    } else {
      assert x.win.lower !in x.win.held;
    }
  }

  /** Twice as many rounds as there are unacknowledged packets would empty the window: a fact
      about the two buffers, not about rcopy, which stops making rounds once the window opens. */
  lemma {:induction false} RoundsEmptyTheWindow(c: Config, x: Ends, n: nat)
    requires c.Ok() && InStep(c, x) && n >= 2 * (x.win.current - x.win.lower)
    ensures var y := Rounds(x, n);
            InStep(c, y) && y.win.current == x.win.current && y.win.lower == y.win.current
    decreases n
  {
    hide Round, EncodePdu;
    if x.win.lower < x.win.current {
      TwoRoundsSlide(c, x);
      RoundsEmptyTheWindow(c, Round(Round(x)), n - 2);
    } else if n > 0 {
      RoundNeverLoses(c, x);
      RoundsEmptyTheWindow(c, Round(x), n - 1);
    }
  }

  // ---------------------------------------------------------------- the same as protocol steps

  /** The state after further events, if each can happen when its turn comes. */
  function Continue(c: Config, s: Sys, events: seq<Transfer.Event>): Option<Sys>
    decreases events
  {
    if events == [] then Some(s)
    else if Enabled(c, s, events[0]) then Continue(c, Next(c, s, events[0]), events[1..])
    else None
  }

  lemma {:induction false} ContinueAppend(c: Config, s: Sys, a: seq<Transfer.Event>, b: seq<Transfer.Event>)
    ensures Continue(c, s, a + b) == match Continue(c, s, a) { case None => None case Some(t) => Continue(c, t, b) }
    decreases a
  {
    hide Next, Enabled;
    if a == [] {
      assert a + b == b;
    } else {
      assert (a + b)[0] == a[0] && (a + b)[1..] == a[1..] + b;
      if Enabled(c, s, a[0]) {
        ContinueAppend(c, Next(c, s, a[0]), a[1..], b);
      }
    }
  }

  lemma {:induction false} PlayIsContinue(c: Config, events: seq<Transfer.Event>)
    ensures Play(c, events) == Continue(c, InitialSys(c), events)
    decreases events
  {
    hide Next, Enabled;
    if events != [] {
      var front, e := events[..|events| - 1], events[|events| - 1];
      PlayIsContinue(c, front);
      ContinueAppend(c, InitialSys(c), front, [e]);
      assert front + [e] == events && [e][1..] == [];
    }
  }

  /** Some continuation of the run leads from one state to the other. */
  ghost predicate Leads(c: Config, s: Sys, t: Sys) {
    exists events :: Continue(c, s, events) == Some(t)
  }

  lemma LeadsHere(c: Config, s: Sys)
    ensures Leads(c, s, s)
  {
    assert Continue(c, s, []) == Some(s);
  }

  lemma LeadsOn(c: Config, s: Sys, t: Sys, e: Transfer.Event)
    requires Leads(c, s, t) && Enabled(c, t, e)
    ensures Leads(c, s, Next(c, t, e))
  {
    hide Enabled, Next;
    var events :| Continue(c, s, events) == Some(t);
    ContinueAppend(c, s, events, [e]);
    assert [e][1..] == [];
    assert Continue(c, Next(c, t, e), []) == Some(Next(c, t, e));
    assert Continue(c, s, events + [e]) == Some(Next(c, t, e));
  }

  function EndsOf(s: Sys): Ends {
    Ends(s.snd.win, s.srv.recv)
  }

  /** A closed window with a try left, facing a server that is still receiving. */
  predicate Waiting(s: Sys) {
    s.snd.mode == WINDOW_CLOSED && s.snd.timeoutCount < MAX_TRIES - 1 && s.srv.phase == RECEIVING
  }

  /** The timeout: the lowest PDU goes out again. */
  lemma ResendLowest(c: Config, s: Sys) returns (e: Transfer.Event, pdu: Octets)
    requires c.Ok() && Inv(c, s) && Waiting(s)
    ensures s.snd.win.Packet(s.snd.win.lower) == Some(pdu) && Enabled(c, s, e)
    ensures Next(c, s, e) == s.(snd := s.snd.(timeoutCount := s.snd.timeoutCount + 1), toServer := s.toServer + {pdu})
  {
    hide EncodePdu, Usable;
    assert s.snd.win.lower in s.snd.win.held;
    e, pdu := Client(Quiet, Passed), s.snd.win.held[s.snd.win.lower];
    assert SenderStep(c, s.snd, Quiet) == WindowClosedStep(s.snd, Quiet);
  }

  /** The server answers the lowest PDU, always with one control message. */
  lemma AnswerLowest(c: Config, s: Sys, pdu: Octets) returns (e: Transfer.Event, q: Octets, r: Control)
    requires c.Ok() && Inv(c, s) && s.srv.phase == RECEIVING
    requires s.snd.win.Packet(s.snd.win.lower) == Some(pdu) && pdu in s.toServer
    ensures |pdu| >= HEADER_LEN && Enabled(c, s, e)
    ensures Reply(s.srv.recv, SequenceNum(pdu), Payload(pdu)) == [r] && r.n <= UINT32_MAX
    ensures q == ControlBytes(s.srv.ackSeqNum, r)
    ensures var srv' := Next(c, s, e).srv;
            && srv'.phase == RECEIVING
            && srv'.recv == Receive(s.srv.recv, SequenceNum(pdu), Payload(pdu))
            && Next(c, s, e) == s.(srv := srv', toClient := s.toClient + {q})
  {
    hide EncodePdu, ControlBytes, FilenamePayload, ChecksumOk, Receive, NotBefore, GoodServerOut;
    var k := s.snd.win.lower;
    assert k in s.snd.win.held;
    EncodedPdu(ToU32(k), FLAG_DATA, c.chunks[k]);
    e := Host(ServerInput.Packet(pdu, [], true), Passed);
    assert s.srv.recv.expected >= k;
    r := Reply(s.srv.recv, k, c.chunks[k])[0];
    OneReply(s.srv.recv, k, c.chunks[k]);
    q := ControlBytes(s.srv.ackSeqNum, r);
    assert ServerStep(s.srv, ServerInput.Packet(pdu, [], true)) == DataStep(s.srv, pdu);
    ServerStepKeeps(c, s, ServerInput.Packet(pdu, [], true));
    ExpectedWasSent(c, s.snd, ServerStep(s.srv, ServerInput.Packet(pdu, [], true)).next);
  }

  /** An answer on the wire is received and processed. */
  lemma ProcessAnswer(c: Config, s: Sys, ackSeqNum: u32, r: Control) returns (e: Transfer.Event)
    requires c.Ok() && Inv(c, s) && s.snd.mode == PROCESS_ACKS && r.n <= UINT32_MAX
    requires ControlBytes(ackSeqNum, r) in s.toClient
    ensures Enabled(c, s, e) && Next(c, s, e).srv == s.srv
    ensures Next(c, s, e).snd == s.snd.(timeoutCount := 0, win := if r.RR? then s.snd.win.AckRR(r.n) else s.snd.win)
  {
    hide EncodePdu, FilenamePayload;
    var q := ControlBytes(ackSeqNum, r);
    ControlRoundTrip(ackSeqNum, if r.RR? then FLAG_RR else FLAG_SREJ, r.n);
    e := Client(Arrived(q), Passed);
    assert SenderStep(c, s.snd, Arrived(q)) == ProcessAcksStep(s.snd, Arrived(q));
  }

  /** A client at a closed window notices that an answer is there. */
  lemma NoticeAnswer(c: Config, s: Sys, q: Octets) returns (e: Transfer.Event)
    requires s.snd.mode == WINDOW_CLOSED && q in s.toClient
    ensures Enabled(c, s, e) && Next(c, s, e) == s.(snd := s.snd.(mode := PROCESS_ACKS, timeoutCount := 0))
  {
    hide EncodePdu, FilenamePayload;
    e := Client(Arrived(q), Passed);
    assert SenderStep(c, s.snd, Arrived(q)) == WindowClosedStep(s.snd, Arrived(q));
  }

  /** From a closed window, four protocol steps make one round. */
  lemma ClosedRound(c: Config, s: Sys) returns (events: seq<Transfer.Event>, s': Sys)
    requires c.Ok() && Inv(c, s) && Waiting(s)
    ensures |events| == 4 && Continue(c, s, events) == Some(s') && Inv(c, s')
    ensures EndsOf(s') == Round(EndsOf(s))
    ensures s'.snd.mode == PROCESS_ACKS && s'.snd.timeoutCount == 0 && s'.srv.phase == RECEIVING
    ensures s'.snd.eofReached == s.snd.eofReached
  {
    hide EncodePdu, ControlBytes, Inv, Enabled, Next, Receive, Reply;
    var e1, pdu := ResendLowest(c, s);
    var s1 := Next(c, s, e1);
    NextKeepsInv(c, s, e1);
    var e2, q, r := AnswerLowest(c, s1, pdu);
    var s2 := Next(c, s1, e2);
    NextKeepsInv(c, s1, e2);
    var e3 := NoticeAnswer(c, s2, q);
    var s3 := Next(c, s2, e3);
    NextKeepsInv(c, s2, e3);
    var e4 := ProcessAnswer(c, s3, s1.srv.ackSeqNum, r);
    s' := Next(c, s3, e4);
    NextKeepsInv(c, s3, e4);
    events := [e1, e2, e3, e4];
    assert events[1..] == [e2, e3, e4] && [e2, e3, e4][1..] == [e3, e4] && [e3, e4][1..] == [e4] && [e4][1..] == [];
    assert Continue(c, s', []) == Some(s');
    assert Continue(c, s3, [e4]) == Some(s');
    assert Continue(c, s2, [e3, e4]) == Some(s');
  }

  /** The answer did not open the window: the client goes back to waiting. */
  lemma BackToWaiting(c: Config, s: Sys) returns (e: Transfer.Event)
    requires c.Ok() && Inv(c, s) && s.snd.mode == PROCESS_ACKS && s.snd.timeoutCount == 0 && s.srv.phase == RECEIVING
    requires !s.snd.win.IsOpen() && s.snd.win.lower < s.snd.win.current
    ensures Enabled(c, s, e) && Next(c, s, e) == s.(snd := s.snd.(mode := WINDOW_CLOSED))
  {
    hide EncodePdu;
    e := Client(Quiet, Passed);
    assert SenderStep(c, s.snd, Quiet) == ProcessAcksStep(s.snd, Quiet);
  }

  /** A client waiting at a closed window gets on within nine protocol steps, if the network
      delivers them: the window slides. */
  lemma ClosedWindowReopens(c: Config, s: Sys) returns (events: seq<Transfer.Event>, s': Sys)
    requires c.Ok() && Inv(c, s) && Waiting(s)
    ensures |events| <= 9 && Continue(c, s, events) == Some(s') && Inv(c, s')
    ensures s'.snd.win.lower > s.snd.win.lower && s'.snd.win.current == s.snd.win.current
  {
    hide Round, Enabled, Next, EncodePdu;
    var first, s1 := ClosedRound(c, s);
    assert InStep(c, EndsOf(s)) by {
      ExpectedWasSent(c, s.snd, s.srv);
    }
    RoundEffect(c, EndsOf(s));
    if s1.snd.win.lower > s.snd.win.lower {
      return first, s1;
    }
    var e := BackToWaiting(c, s1);
    var s2 := Next(c, s1, e);
    NextKeepsInv(c, s1, e);
    var second, s3 := ClosedRound(c, s2);
    TwoRoundsSlide(c, EndsOf(s));
    events, s' := first + ([e] + second), s3;
    assert ([e] + second)[1..] == second;
    ContinueAppend(c, s, first, [e] + second);
  }
}

/** Which reachable states of a transfer between two can still complete it, which cannot, and how
    it ends. */
module Outcome {
  import opened Bytes
  import opened Checksum
  import opened Pdu
  import opened Channel
  import opened SenderSpec
  import opened SenderProperties
  import opened ServerSpec
  import opened Transfer
  import opened Safety
  import opened Progress
  import opened Delivery
  import opened Recovery
  import opened Completion

  lemma {:induction false} HopelessRun(c: Config, events: seq<Event>, more: seq<Event>)
    requires c.Ok() && Play(c, events + more).Some?
    ensures Play(c, events).Some?
    ensures var s, s' := Play(c, events).value, Play(c, events + more).value;
            !InHandshake(s.snd) && !Completable(c, s) ==> !InHandshake(s'.snd) && !Completable(c, s')
    decreases more
  {
    hide Completable, Next, Enabled, InHandshake, Good;
    if more == [] {
      assert events + more == events;
    } else {
      var front, e := more[..|more| - 1], more[|more| - 1];
      assert (events + more)[..|events + more| - 1] == events + front;
      HopelessRun(c, events, front);
      var s := Play(c, events + front).value;
      PlayKeepsGood(c, events + front);
      if !InHandshake(s.snd) && !Completable(c, s) {
        HopelessForever(c, s, e);
      }
    }
  }

  /** A state that a run leads to extends the run. */
  lemma LeadsExtends(c: Config, events: seq<Event>, t: Sys) returns (more: seq<Event>)
    requires Play(c, events).Some? && Leads(c, Play(c, events).value, t)
    ensures Play(c, events + more) == Some(t)
  {
    hide Play, Continue;
    var s := Play(c, events).value;
    more :| Continue(c, s, more) == Some(t);
    PlayIsContinue(c, events);
    PlayIsContinue(c, events + more);
    ContinueAppend(c, InitialSys(c), events, more);
  }

  lemma FromStart(c: Config, s: Sys) returns (events: seq<Event>)
    requires Leads(c, InitialSys(c), s)
    ensures Play(c, events) == Some(s)
  {
    hide Continue;
    events :| Continue(c, InitialSys(c), events) == Some(s);
    PlayIsContinue(c, events);
  }

  /** The exact condition past the handshake: after any run, some continuation - of whatever
      deliveries, losses and timeouts - has the whole file acknowledged if and only if the state
      is Completable. The handshake is in Serving.CanCompleteExactly, with all children. */
  lemma CompletableExactly(c: Config, events: seq<Event>)
    requires c.Ok() && Play(c, events).Some? && !InHandshake(Play(c, events).value.snd)
    ensures (exists more :: Play(c, events + more).Some? && AllAcknowledged(c, Play(c, events + more).value.snd))
            <==> Completable(c, Play(c, events).value)
  {
    hide Play, Good, Completable, AllAcknowledged, InHandshake;
    var s := Play(c, events).value;
    if Completable(c, s) {
      PlayKeepsGood(c, events);
      var t := CompletableCompletes(c, s);
      var more := LeadsExtends(c, events, t);
    }
    forall more | Play(c, events + more).Some? && AllAcknowledged(c, Play(c, events + more).value.snd)
      ensures Completable(c, s)
    {
      AcknowledgedIsCompletable(c, Play(c, events + more).value);
      HopelessRun(c, events, more);
    }
  }

  lemma AcknowledgedIsCompletable(c: Config, s: Sys)
    requires AllAcknowledged(c, s.snd)
    ensures Completable(c, s)
  {
    hide LastLost, RejectLost, AnswerOnWire, ConsentOnWire, RequestOnWire;
  }

  // ---------------------------------------------------------------- how a completed transfer ends

  /** The client runs through `k` silent calls. */
  lemma {:induction false} ClientSilent(c: Config, from: Sys, s: Sys, k: nat) returns (t: Sys)
    requires c.Ok() && Leads(c, from, s) && Inv(c, s)
    ensures Leads(c, from, t) && Inv(c, t) && t.srv == s.srv && t.snd == SilentRun(c, s.snd, k)
  {
    hide Inv, Leads, SenderStep;
    if k == 0 {
      t := s;
    } else {
      var u := ClientSilent(c, from, s, k - 1);
      ClientStepKeeps(c, u, Quiet);
      var e := Client(Quiet, Passed);
      t := Next(c, u, e);
      LeadsOn(c, from, u, e);
      NextKeepsInv(c, u, e);
    }
  }

  function TimeoutsLeft(srv: Server): nat {
    match srv.phase
    case EOF_LOOP(tries) => if tries < MAX_TRIES then MAX_TRIES - tries else 1
    case FINISHED => 0
    case _ => 1
  }

  /** The server's polls time out until it returns. */
  lemma {:induction false} ServerSilent(c: Config, from: Sys, s: Sys) returns (t: Sys)
    requires c.Ok() && Leads(c, from, s) && Inv(c, s) && s.srv.phase != LISTENING
    ensures Leads(c, from, t) && t.snd == s.snd && t.srv.phase == FINISHED && t.srv.recv == s.srv.recv
    decreases TimeoutsLeft(s.srv)
  {
    hide Inv, Leads, EncodePdu;
    if s.srv.phase == FINISHED {
      return s;
    }
    var e := Host(Timeout, Dropped);
    ServerStepKeeps(c, s, Timeout);
    var u := Next(c, s, e);
    LeadsOn(c, from, s, e);
    NextKeepsInv(c, s, e);
    t := ServerSilent(c, from, u);
  }

  lemma AcknowledgedFacts(c: Config, s: Sys)
    requires Inv(c, s) && AllAcknowledged(c, s.snd)
    ensures SenderOk(c, s.snd) && !Stuck(c, s.snd) && s.srv.phase != LISTENING
    ensures s.srv.recv.Ok() && s.srv.recv.expected == |c.chunks|
  {
    hide EncodePdu, Usable, FilenamePayload;
    ExpectedWasSent(c, s.snd, s.srv);
  }

  /** From every completable state there is a continuation at whose end both programs have
      ended and the output file is the input file. */
  lemma CompletableEnds(c: Config, events: seq<Event>) returns (more: seq<Event>)
    requires c.Ok() && Play(c, events).Some? && Completable(c, Play(c, events).value)
    ensures Play(c, events + more).Some?
    ensures var t := Play(c, events + more).value;
            && t.snd.mode == DONE && t.srv.phase == FINISHED && AllAcknowledged(c, t.snd)
            && t.srv.recv.Ok() && FileWritten(t.srv) == FileUpTo(c.chunks, |c.chunks|)
  {
    hide Play, Completable, Leads, FileWritten, SilentRun, SenderOk;
    var s := Play(c, events).value;
    PlayKeepsGood(c, events);
    var s1 := CompletableCompletes(c, s);
    AcknowledgedFacts(c, s1);
    SilentTermination(c, s1.snd);
    var s2 := ClientSilent(c, s, s1, Rank(s1.snd));
    var t := ServerSilent(c, s, s2);
    more := LeadsExtends(c, events, t);
    PrefixSafety(c, events + more);
    SilentKeepsAcknowledged(c, s1.snd, Rank(s1.snd));
  }

  lemma {:induction false} SilentKeepsAcknowledged(c: Config, s: Sender, k: nat)
    requires AllAcknowledged(c, s)
    ensures AllAcknowledged(c, SilentRun(c, s, k))
  {
    hide EncodePdu;
    if k > 0 {
      SilentKeepsAcknowledged(c, s, k - 1);
    }
  }

  // ---------------------------------------------------------------- when a loss can be fatal

  /** Client and server are both still at it. */
  predicate Ongoing(s: Sys) {
    InData(s.snd) && s.srv.phase == RECEIVING
  }

  /** A reachable state in which the first `k` chunks are across and nothing else was sent. */
  lemma ReadyAt(c: Config, k: nat) returns (s: Sys)
    requires c.Ok() && k <= |c.chunks|
    ensures UpToDate(c, s, k) && Good(c, s) && s.srv.recv.expected == k
    ensures forall j: nat :: DataOnWire(s, j) || AnswerOnWire(s, FLAG_SREJ, j) ==> j < k
  {
    hide Inv, Traces, Leads, DataOnWire;
    s := ManyChunks(c, k);
    var events := FromStart(c, s);
    PlayKeepsGood(c, events);
    AllReceived(c, s, k);
    forall j: nat | DataOnWire(s, j) ensures j < k {
      OnWireWasSent(c, s, j);
    }
    forall j: nat | AnswerOnWire(s, FLAG_SREJ, j) ensures j < k {
      var p :| p in s.toClient && IsAnswer(p, FLAG_SREJ, j);
      ArrivedAnswer(c, s, p);
    }
  }

  /** The client reads and sends the next chunk. */
  lemma SendOne(c: Config, s: Sys, fate: Fate) returns (t: Sys)
    requires c.Ok() && Leads(c, InitialSys(c), s) && Good(c, s) && (fate.Passed? || fate.Dropped?)
    requires s.snd.mode == SEND_DATA && !s.snd.eofReached && s.snd.win.IsOpen() && s.snd.win.current < |c.chunks|
    ensures Leads(c, InitialSys(c), t) && Good(c, t) && t.srv == s.srv && t.toClient == s.toClient
    ensures t.snd.mode == PROCESS_ACKS && !t.snd.eofReached
    ensures t.snd.win.lower == s.snd.win.lower && t.snd.win.current == s.snd.win.current + 1
    ensures forall k: nat :: DataOnWire(t, k) <==> DataOnWire(s, k) || (fate.Passed? && k == s.snd.win.current)
  {
    hide EncodePdu, Usable, FilenamePayload, Traces, Leads, DataOnWire;
    var e := Client(Quiet, fate);
    assert SenderStep(c, s.snd, Quiet) == SendDataStep(c, s.snd, Quiet);
    t := Next(c, s, e);
    LeadsOn(c, InitialSys(c), s, e);
    NextKeepsGood(c, s, e);
    ClientWire(c, s, Quiet, fate);
    if fate.Dropped? {
      SameData(s, t);
    }
  }

  /** Everything but the last chunk is across; the last chunk is sent. */
  lemma SendLast(c: Config, fate: Fate) returns (events: seq<Event>, s: Sys)
    requires c.Ok() && |c.chunks| >= 1 && (fate.Passed? || fate.Dropped?)
    ensures Play(c, events) == Some(s) && Good(c, s)
    ensures Ongoing(s) && s.snd.mode == PROCESS_ACKS && s.srv.recv.expected == s.snd.win.lower == |c.chunks| - 1
    ensures s.snd.win.current == |c.chunks| && (DataOnWire(s, |c.chunks| - 1) <==> fate.Passed?)
  {
    hide Good, Leads, DataOnWire, Play;
    var s0 := ReadyAt(c, |c.chunks| - 1);
    WindowIsFresh(c, s0);
    s := SendOne(c, s0, fate);
    events := FromStart(c, s);
  }

  lemma WindowIsFresh(c: Config, s: Sys)
    requires Inv(c, s) && s.snd.win.lower == s.snd.win.current
    ensures s.snd.win.size == c.windowSize && (c.Ok() ==> s.snd.win.IsOpen())
  {
    hide EncodePdu, Usable, FilenamePayload;
  }

  /** The network can take a transfer beyond repair while both programs are still running exactly
      if the window is wider than one and the file is not empty: it drops the last chunk. */
  lemma LossCanBeFatalExactly(c: Config)
    requires c.Ok()
    ensures (exists events :: && Play(c, events).Some? && Ongoing(Play(c, events).value)
                              && !Completable(c, Play(c, events).value))
            <==> c.windowSize >= 2 && |c.chunks| >= 1
  {
    hide Play, Good, Completable;
    if c.windowSize >= 2 && |c.chunks| >= 1 {
      var events, s := SendLast(c, Dropped);
      DroppedLast(c, s);
    }
    forall events | Play(c, events).Some? && Ongoing(Play(c, events).value) && !Completable(c, Play(c, events).value)
      ensures c.windowSize >= 2 && |c.chunks| >= 1
    {
      PlayKeepsGood(c, events);
      HopelessNeedsRoom(c, Play(c, events).value);
    }
  }

  lemma DroppedLast(c: Config, s: Sys)
    requires c.Ok() && c.windowSize >= 2 && Good(c, s) && Ongoing(s) && |c.chunks| >= 1
    requires s.snd.win.lower == |c.chunks| - 1 && s.snd.win.current == |c.chunks|
    requires s.srv.recv.expected == |c.chunks| - 1 && !DataOnWire(s, |c.chunks| - 1)
    ensures !Completable(c, s)
  {
    hide EncodePdu, ChecksumOk, DataOnWire, AnswerOnWire, Good;
    WhatPhasesMean(c, s);
  }

  lemma HopelessNeedsRoom(c: Config, s: Sys)
    requires c.Ok() && Good(c, s) && Ongoing(s) && !Completable(c, s)
    ensures c.windowSize >= 2 && |c.chunks| >= 1
  {
    hide EncodePdu, ChecksumOk, DataOnWire, AnswerOnWire, Traces;
    WhatPhasesMean(c, s);
  }

  /** Both losses of the SREJ's story: the last chunk but one is dropped, the last one arrives,
      and so is the SREJ that it provokes. */
  lemma LoseReject(c: Config) returns (events: seq<Event>, s: Sys)
    requires c.Ok() && c.windowSize >= 3 && |c.chunks| >= 2
    ensures Play(c, events) == Some(s) && Ongoing(s) && RejectLost(c, s)
  {
    hide Good, Leads, DataOnWire, AnswerOnWire, Play;
    var last := |c.chunks| - 1;
    var s0 := ReadyAt(c, last - 1);
    WindowIsFresh(c, s0);
    var s1 := SendOne(c, s0, Dropped);
    var s2 := Resume(c, s1);
    var s3 := SendOne(c, s2, Passed);
    SameAnswers(s0, s3);
    s := RejectDropped(c, s3, last);
    events := FromStart(c, s);
  }

  /** Nothing has arrived and the window is open: the client goes on to the next chunk. */
  lemma Resume(c: Config, s: Sys) returns (t: Sys)
    requires c.Ok() && Leads(c, InitialSys(c), s) && Good(c, s)
    requires s.snd.mode == PROCESS_ACKS && !s.snd.eofReached && s.snd.win.current < s.snd.win.lower + c.windowSize
    ensures Leads(c, InitialSys(c), t) && Good(c, t) && t == s.(snd := s.snd.(mode := SEND_DATA)) && t.snd.win.IsOpen()
    ensures forall k: nat :: DataOnWire(t, k) <==> DataOnWire(s, k)
  {
    hide EncodePdu, Usable, FilenamePayload, Traces, Leads, DataOnWire;
    var e := Client(Quiet, Passed);
    assert SenderStep(c, s.snd, Quiet) == ProcessAcksStep(s.snd, Quiet);
    t := Next(c, s, e);
    LeadsOn(c, InitialSys(c), s, e);
    NextKeepsGood(c, s, e);
    SameData(s, t);
  }

  /** The last chunk arrives behind a gap, and the SREJ for the gap is dropped. */
  lemma RejectDropped(c: Config, s: Sys, last: nat) returns (t: Sys)
    requires c.Ok() && Leads(c, InitialSys(c), s) && Good(c, s) && Ongoing(s)
    requires c.windowSize >= 3 && 1 <= last == |c.chunks| - 1
    requires s.srv.recv.expected == last - 1 && s.snd.win.current == last + 1
    requires DataOnWire(s, last) && !DataOnWire(s, last - 1)
    requires forall k: nat :: AnswerOnWire(s, FLAG_SREJ, k) ==> k < last - 1
    ensures Leads(c, InitialSys(c), t) && Ongoing(t) && RejectLost(c, t)
  {
    hide EncodePdu, ChecksumOk, FilenamePayload, Traces, Leads, AnswerOnWire;
    var p :| p in s.toServer && IsNumber(p, last);
    var i := ServerInput.Packet(p, [], true);
    var e := Host(i, Dropped);
    t := Next(c, s, e);
    LeadsOn(c, InitialSys(c), s, e);
    HostReceives(s.srv, i);
    assert ServerStep(s.srv, i) == DataStep(s.srv, p);
    assert last in t.srv.recv.got;
    SameData(s, t);
    SameAnswers(s, t);
  }

  /** That happens exactly if the window is wider than two and the file has two chunks. */
  lemma RejectLossExactly(c: Config)
    requires c.Ok()
    ensures (exists events :: && Play(c, events).Some? && Ongoing(Play(c, events).value)
                              && RejectLost(c, Play(c, events).value))
            <==> c.windowSize >= 3 && |c.chunks| >= 2
  {
    hide Play, Good, RejectLost;
    if c.windowSize >= 3 && |c.chunks| >= 2 {
      var events, s := LoseReject(c);
    }
    forall events | Play(c, events).Some? && Ongoing(Play(c, events).value) && RejectLost(c, Play(c, events).value)
      ensures c.windowSize >= 3 && |c.chunks| >= 2
    {
      PlayKeepsGood(c, events);
      RejectLossNeedsRoom(c, Play(c, events).value);
    }
  }

  lemma RejectLossNeedsRoom(c: Config, s: Sys)
    requires Good(c, s) && RejectLost(c, s)
    ensures c.windowSize >= 3 && |c.chunks| >= 2
  {
    hide EncodePdu, ChecksumOk, FilenamePayload, DataOnWire, AnswerOnWire, Traces;
  }

  /** The endless cycle of SilentTermination is reachable exactly in the same cases. */
  lemma StuckExactly(c: Config)
    requires c.Ok()
    ensures (exists events :: Play(c, events).Some? && Stuck(c, Play(c, events).value.snd))
            <==> c.windowSize >= 2 && |c.chunks| >= 1
  {
    hide Play, Good, Inv;
    if c.windowSize >= 2 && |c.chunks| >= 1 {
      var events, s := SendLast(c, Passed);
      SentLastIsStuck(c, s);
    }
    forall events | Play(c, events).Some? && Stuck(c, Play(c, events).value.snd)
      ensures c.windowSize >= 2 && |c.chunks| >= 1
    {
      PlayKeepsInv(c, events);
      StuckNeedsRoom(c, Play(c, events).value);
    }
  }

  lemma SentLastIsStuck(c: Config, s: Sys)
    requires Good(c, s) && c.windowSize >= 2 && |c.chunks| >= 1
    requires s.snd.mode == PROCESS_ACKS && s.snd.win.lower == |c.chunks| - 1
    ensures Stuck(c, s.snd)
  {
    hide EncodePdu, Usable, FilenamePayload, Traces;
  }

  lemma StuckNeedsRoom(c: Config, s: Sys)
    requires Inv(c, s) && Stuck(c, s.snd)
    ensures c.windowSize >= 2 && |c.chunks| >= 1
  {
    hide EncodePdu, Usable, FilenamePayload;
  }
}

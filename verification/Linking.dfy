/** Runs of the whole protocol, seen from each end: what the classes are asked to do. */
module Linking {
  import opened Bytes
  import opened Pdu
  import opened SenderSpec
  import opened ServerSpec
  import opened FileServer
  import opened Transfer
  import opened ReceiverSpec
  import opened Safety

  /** What the client observes during a run. */
  function ClientInputs(events: seq<Event>): seq<SenderSpec.Input> {
    if events == [] then []
    else
      var front, e := ClientInputs(events[..|events| - 1]), events[|events| - 1];
      if e.Client? then front + [e.input] else front
  }

  /** What the server observes during a run. */
  function HostInputs(events: seq<Event>): seq<ServerInput> {
    if events == [] then []
    else
      var front, e := HostInputs(events[..|events| - 1]), events[|events| - 1];
      if e.Host? then front + [e.request] else front
  }

  /** Each end of a run is in the state that its own program reaches on what it observed. */
  lemma {:induction false} EndsRunTheirPrograms(c: Config, events: seq<Event>)
    requires Play(c, events).Some?
    ensures var s := Play(c, events).value;
            && s.snd == RunSender(c, InitialSender(c), ClientInputs(events)).next
            && s.srv == RunServer(INITIAL_SERVER, HostInputs(events)).next
    decreases events
  {
    hide SenderStep, ServerStep;
    if events != [] {
      var front, e := events[..|events| - 1], events[|events| - 1];
      EndsRunTheirPrograms(c, front);
      match e
      case Client(i, _) => RunSenderNext(c, InitialSender(c), ClientInputs(front), i);
      case Host(i, _) => RunServerNext(INITIAL_SERVER, HostInputs(front), i);
    }
  }

  /** The server after the first `n` of its inputs. */
  function ServerAfter(inputs: seq<ServerInput>, n: nat): Server
    requires n <= |inputs|
  {
    RunServer(INITIAL_SERVER, inputs[..n]).next
  }

  /** A data packet is in the window, a request is the client's. */
  ghost predicate ArrivesInWindow(c: Config, srv: Server, i: ServerInput) {
    && (IsData(i) ==> SequenceNum(i.p) < srv.recv.expected + c.windowSize && SequenceNum(i.p) < UINT32_MAX - 1)
    && (i.Packet? && Usable(i.p) && Flag(i.p) == FLAG_FILENAME ==>
          Payload(i.p) == FilenamePayload(c.windowSize, c.bufferSize, c.toFile))
  }

  /** The server knows the window size, and what it has received is the client's. */
  ghost predicate InTune(c: Config, srv: Server) {
    && (srv.phase == RECEIVING ==> srv.windowSize == c.windowSize)
    && srv.recv.Ok() && srv.recv.expected <= |c.chunks|
    && (forall k :: k in srv.recv.got && k < |c.chunks| ==> srv.recv.got[k] == c.chunks[k])
  }

  /** Every data packet in the window when its turn came, and the server in tune all along. */
  ghost predicate AllInWindow(c: Config, h: seq<ServerInput>) {
    && (forall n: nat :: n < |h| ==> ArrivesInWindow(c, ServerAfter(h, n), h[n]))
    && (forall n: nat :: n <= |h| ==> InTune(c, ServerAfter(h, n)))
  }

  lemma OneMoreInWindow(c: Config, h: seq<ServerInput>, i: ServerInput)
    requires AllInWindow(c, h)
    requires ArrivesInWindow(c, RunServer(INITIAL_SERVER, h).next, i)
    requires InTune(c, RunServer(INITIAL_SERVER, h + [i]).next)
    ensures AllInWindow(c, h + [i])
  {
    hide ArrivesInWindow, InTune, RunServer;
    var h' := h + [i];
    forall n: nat | n <= |h| ensures ServerAfter(h', n) == ServerAfter(h, n) {
      assert h'[..n] == h[..n];
    }
    assert h[..|h|] == h && h'[..|h'|] == h';
  }

  lemma {:induction false} EveryInputInWindow(c: Config, events: seq<Event>)
    requires c.Ok() && Play(c, events).Some?
    ensures AllInWindow(c, HostInputs(events))
    decreases events
  {
    hide ArrivesInWindow, InTune, AllInWindow, Inv, RunServer, Enabled, Next;
    PlayKeepsInv(c, events);
    EndsRunTheirPrograms(c, events);
    InvInTune(c, Play(c, events).value);
    if events == [] {
      NothingInWindow(c);
    } else {
      var front, e := events[..|events| - 1], events[|events| - 1];
      EveryInputInWindow(c, front);
      if e.Host? {
        EndsRunTheirPrograms(c, front);
        PlayKeepsInv(c, front);
        InvDeliversInWindow(c, Play(c, front).value, e.request, e.fate);
        OneMoreInWindow(c, HostInputs(front), e.request);
      }
    }
  }

  lemma NothingInWindow(c: Config)
    ensures AllInWindow(c, [])
  {
  }

  lemma InvInTune(c: Config, s: Sys)
    requires Inv(c, s)
    ensures InTune(c, s.srv)
  {
    ExpectedWasSent(c, s.snd, s.srv);
  }

  lemma InvDeliversInWindow(c: Config, s: Sys, i: ServerInput, fate: Channel.Fate)
    requires c.Ok() && Inv(c, s) && Enabled(c, s, Host(i, fate))
    ensures ArrivesInWindow(c, s.srv, i)
  {
    if IsData(i) {
      DeliverableIsInWindow(c, s, i.p);
    }
    assert i.Packet? ==> FromClient(c, s.snd, i.p);
  }

  /** In every run, from the moment the server is receiving, the packets it is given meet the
      precondition of ServerInfo.ReceiveFile, and with it that of Buffer.BufferProcessPDU. */
  lemma ReceiveFileIsSafe(c: Config, events: seq<Event>, k: nat)
    requires c.Ok() && Play(c, events).Some?
    requires k <= |HostInputs(events)| && ServerAfter(HostInputs(events), k).phase == RECEIVING
    ensures InWindowScript(ServerAfter(HostInputs(events), k), HostInputs(events)[k..])
  {
    hide RunServer, Play;
    var h := HostInputs(events);
    var script := h[k..];
    EveryInputInWindow(c, events);
    assert InTune(c, ServerAfter(h, k));
    forall n: nat | n < |script| && IsData(script[n])
      ensures var seqNum := SequenceNum(script[n].p);
              && seqNum < RunServer(ServerAfter(h, k), script[..n]).next.recv.expected + c.windowSize
              && seqNum < UINT32_MAX - 1
    {
      assert ArrivesInWindow(c, ServerAfter(h, k + n), h[k + n]);
      RunServerAppend(INITIAL_SERVER, h[..k], script[..n]);
      assert h[..k] + script[..n] == h[..k + n];
    }
  }

  lemma {:induction false} ListeningIsInitial(inputs: seq<ServerInput>)
    ensures var srv := RunServer(INITIAL_SERVER, inputs).next;
            srv.phase == LISTENING ==> srv == INITIAL_SERVER
    decreases inputs
  {
    hide EncodePdu, ParseFilename, Usable;
    if inputs != [] {
      ListeningIsInitial(inputs[..|inputs| - 1]);
    }
  }

  /** In every run the request that ends the listening meets the precondition of
      ServerInfo.ProcessClient, and so does everything that the server is given after it. */
  lemma ProcessClientIsSafe(c: Config, events: seq<Event>, k: nat)
    requires c.Ok() && Play(c, events).Some?
    requires var h := HostInputs(events);
             && k < |h| && ServerAfter(h, k).phase == LISTENING
             && h[k].Packet? && Usable(h[k].p) && Flag(h[k].p) == FLAG_FILENAME
    ensures var h := HostInputs(events);
            && ServerAfter(h, k) == INITIAL_SERVER && IsFirstRequest(h[k])
            && (ListenStep(INITIAL_SERVER, h[k]).next.phase == RECEIVING ==>
                  InWindowScript(ListenStep(INITIAL_SERVER, h[k]).next, h[k + 1..]))
  {
    hide Play, RunServer, ListenStep, Usable, ParseFilename, IsFirstRequest, InWindowScript;
    var h := HostInputs(events);
    EveryInputInWindow(c, events);
    ListeningIsInitial(h[..k]);
    assert ArrivesInWindow(c, ServerAfter(h, k), h[k]);
    RequestIsFirst(c, h[k]);
    RunServerNext(INITIAL_SERVER, h[..k], h[k]);
    assert h[..k] + [h[k]] == h[..k + 1];
    assert ServerStep(INITIAL_SERVER, h[k]) == ListenStep(INITIAL_SERVER, h[k]);
    if ListenStep(INITIAL_SERVER, h[k]).next.phase == RECEIVING {
      ReceiveFileIsSafe(c, events, k + 1);
    }
  }

  /** What ProcessClient writes on the inputs of a run, stopped after `used` of those that follow
      the request, is the client's file, up to the number that the server then expects. */
  lemma ProcessClientWritesTheFile(c: Config, events: seq<Event>, k: nat, used: nat)
    requires c.Ok() && Play(c, events).Some?
    requires var h := HostInputs(events);
             k + 1 + used <= |h| && ServerAfter(h, k).phase == LISTENING
    ensures var h := HostInputs(events);
            var last := RunServer(INITIAL_SERVER, [h[k]] + h[k + 1..][..used]).next;
            && last == ServerAfter(h, k + 1 + used)
            && last.recv.Ok() && last.recv.expected <= |c.chunks|
            && Output(last.recv.got, last.recv.expected) == FileUpTo(c.chunks, last.recv.expected)
  {
    hide Play, RunServer;
    var h := HostInputs(events);
    var taken := [h[k]] + h[k + 1..][..used];
    EveryInputInWindow(c, events);
    ListeningIsInitial(h[..k]);
    RunServerAppend(INITIAL_SERVER, h[..k], taken);
    assert h[..k] + taken == h[..k + 1 + used];
    assert InTune(c, ServerAfter(h, k + 1 + used));
    var last := ServerAfter(h, k + 1 + used).recv;
    OutputIsFile(last.got, c.chunks, last.expected);
  }

  lemma RequestIsFirst(c: Config, i: ServerInput)
    requires c.Ok() && i.Packet? && Usable(i.p) && Flag(i.p) == FLAG_FILENAME
    requires Payload(i.p) == FilenamePayload(c.windowSize, c.bufferSize, c.toFile)
    ensures IsFirstRequest(i)
  {
    hide ParseFilename, FilenamePayload;
    FilenameRoundTrip(i.p, c.windowSize, c.bufferSize, c.toFile, i.stale);
  }
}

/** The sender's state machine, rcopy.c: what each state function does with what it observes. */
module SenderSpec {
  import opened Bytes
  import opened Checksum
  import opened Pdu
  import opened SenderWindow

  datatype Mode =
    | SEND_FILENAME
    | WAIT_FILENAME_ACK
    | SEND_DATA
    | PROCESS_ACKS
    | WINDOW_CLOSED
    | SEND_EOF
    | WAIT_EOF_ACK
    | DONE

  const MAX_TRIES := 10

  /** One transfer: the command line, and the file cut into the chunks that `read` returns. */
  datatype Config = Config(windowSize: u32, bufferSize: u32, toFile: Octets, chunks: seq<Octets>) {

    /** What checkArgs and initRcopyInfo enforce, and the bound under which no number wraps. */
    ghost predicate Ok() {
      && 0 < windowSize < 0x8000_0000
      && 1 <= bufferSize <= MAX_DATA_SIZE
      && 0 !in toFile && |toFile| <= 100
      && (forall d :: d in chunks ==> 0 < |d| <= bufferSize)
      && |chunks| + windowSize <= UINT32_MAX
    }
  }

  /** The bytes of chunks 0..n-1: for all chunks, the input file. */
  function FileUpTo(chunks: seq<Octets>, n: nat): Octets
    requires n <= |chunks|
  {
    if n == 0 then [] else FileUpTo(chunks, n - 1) + chunks[n - 1]
  }

  /** RcopyInfo and the state variable of stateHandler. */
  datatype Sender = Sender(
    mode: Mode,
    win: WindowView,
    timeoutCount: nat,
    filenameTries: nat,
    eofTries: nat,
    controlSeqNum: u32,
    eofReached: bool,
    filePos: nat)

  function InitialSender(c: Config): Sender {
    Sender(SEND_FILENAME, WindowView(c.windowSize, 0, 0, map[]), 0, 0, 0, 0, false, 0)
  }

  /** What one call of a state function observes: a packet is there, nothing is there before
      the timeout, or (in SEND_DATA) `read` fails. States that do not poll ignore arrivals. */
  datatype Input = Arrived(p: Octets) | Quiet | ReadFails

  /** The state afterwards, and the PDUs handed to sendtoErr. */
  datatype Step = Step(next: Sender, out: seq<Octets>)

  function DataPdu(k: nat, payload: Octets): Octets {
    EncodePdu(Little, ToU32(k), FLAG_DATA, payload)
  }

  /** The checksum matches and there is a whole header to read. */
  predicate Usable(p: Octets) {
    |p| >= HEADER_LEN && ChecksumOk(Little, p)
  }

  predicate IsControl(p: Octets, flag: byte) {
    Usable(p) && Flag(p) == flag && |p| >= HEADER_LEN + 4
  }

  function AsList(p: Option<Octets>): seq<Octets> {
    if p.Some? then [p.value] else []
  }

  /** `sendControlPacket`. */
  function SendControlPacket(s: Sender, mode: Mode, flag: byte, payload: Octets): Step {
    Step(s.(mode := mode, controlSeqNum := Increment(s.controlSeqNum)),
         [EncodePdu(Little, s.controlSeqNum, flag, payload)])
  }

  function SendFilenameStep(c: Config, s: Sender): Step {
    SendControlPacket(s, WAIT_FILENAME_ACK, FLAG_FILENAME, FilenamePayload(c.windowSize, c.bufferSize, c.toFile))
  }

  function WaitFilenameAckStep(s: Sender, i: Input): Step {
    if !i.Arrived? then
      var tries := s.filenameTries + 1;
      Step(s.(mode := if tries >= MAX_TRIES then DONE else SEND_FILENAME, filenameTries := tries), [])
    else if !Usable(i.p) || Flag(i.p) != FLAG_FILENAME_RESPONSE then Step(s, [])
    else if |i.p| > HEADER_LEN && i.p[HEADER_LEN] != 0 then Step(s.(mode := DONE), [])
    else Step(s.(mode := SEND_DATA, filenameTries := 0), [])
  }

  /** Where SEND_DATA and PROCESS_ACKS go once the file is exhausted. */
  function AfterEof(win: WindowView): Mode {
    if win.lower == win.current then SEND_EOF else PROCESS_ACKS
  }

  function SendDataStep(c: Config, s: Sender, i: Input): Step {
    if s.eofReached then Step(s.(mode := AfterEof(s.win)), [])
    else if !s.win.IsOpen() then Step(s.(mode := WINDOW_CLOSED), [])
    else if i.ReadFails? then Step(s.(mode := DONE), [])
    else if s.filePos >= |c.chunks| then Step(s.(mode := AfterEof(s.win), eofReached := true), [])
    else
      var pdu := DataPdu(s.win.current, c.chunks[s.filePos]);
      Step(s.(mode := PROCESS_ACKS, win := s.win.Add(pdu), filePos := s.filePos + 1), [pdu])
  }

  /** One turn of the draining loop of processAcksState, or its exit. */
  function ProcessAcksStep(s: Sender, i: Input): Step {
    if i.Arrived? then
      if IsControl(i.p, FLAG_RR) then
        Step(s.(win := s.win.AckRR(ControlNumber(i.p)), timeoutCount := 0), [])
      else if IsControl(i.p, FLAG_SREJ) then
        Step(s.(timeoutCount := 0), AsList(s.win.Packet(ControlNumber(i.p))))
      else Step(s, [])
    else if s.eofReached && s.win.lower == s.win.current then Step(s.(mode := SEND_EOF), [])
    else Step(s.(mode := if s.win.IsOpen() then SEND_DATA else WINDOW_CLOSED), [])
  }

  /** The packet seen here stays in the socket: PROCESS_ACKS receives it. */
  function WindowClosedStep(s: Sender, i: Input): Step {
    if i.Arrived? then Step(s.(mode := PROCESS_ACKS, timeoutCount := 0), [])
    else
      var count := s.timeoutCount + 1;
      Step(s.(mode := if count >= MAX_TRIES then DONE else WINDOW_CLOSED, timeoutCount := count),
           AsList(s.win.Packet(s.win.lower)))
  }

  function SendEofStep(s: Sender): Step {
    SendControlPacket(s, WAIT_EOF_ACK, FLAG_EOF, [])
  }

  function WaitEofAckStep(s: Sender, i: Input): Step {
    if i.Arrived? && Usable(i.p) && Flag(i.p) == FLAG_EOF_ACK then
      SendControlPacket(s, DONE, FLAG_FINAL_ACK, [])
    else
      var tries := s.eofTries + 1;
      Step(s.(mode := if tries >= MAX_TRIES then DONE else SEND_EOF, eofTries := tries), [])
  }

  /** One turn of stateHandler. */
  function SenderStep(c: Config, s: Sender, i: Input): Step {
    match s.mode
    case SEND_FILENAME => SendFilenameStep(c, s)
    case WAIT_FILENAME_ACK => WaitFilenameAckStep(s, i)
    case SEND_DATA => SendDataStep(c, s, i)
    case PROCESS_ACKS => ProcessAcksStep(s, i)
    case WINDOW_CLOSED => WindowClosedStep(s, i)
    case SEND_EOF => SendEofStep(s)
    case WAIT_EOF_ACK => WaitEofAckStep(s, i)
    case DONE => Step(s, [])
  }

  function RunSender(c: Config, s: Sender, inputs: seq<Input>): Step
    decreases inputs
  {
    if inputs == [] then Step(s, [])
    else
      var before := RunSender(c, s, inputs[..|inputs| - 1]);
      var last := SenderStep(c, before.next, inputs[|inputs| - 1]);
      Step(last.next, before.out + last.out)
  }

  lemma RunSenderNext(c: Config, s: Sender, inputs: seq<Input>, i: Input)
    ensures var before := RunSender(c, s, inputs);
            var last := SenderStep(c, before.next, i);
            RunSender(c, s, inputs + [i]) == Step(last.next, before.out + last.out)
  {
    assert (inputs + [i])[..|inputs|] == inputs;
  }

  // ---------------------------------------------------------------- the invariant

  /** The window holds the data PDUs of lower..current-1, byte for byte as they were first sent,
      and as many chunks have been read as numbers given out. */
  ghost predicate WindowFaithful(c: Config, s: Sender) {
    && s.win.Ok() && s.win.size == c.windowSize
    && s.filePos == s.win.current <= |c.chunks|
    && (forall k :: k in s.win.held ==> s.win.held[k] == DataPdu(k, c.chunks[k]))
  }

  predicate BeforeData(s: Sender) {
    && s.win.current == 0 && !s.eofReached
    && s.filenameTries < MAX_TRIES && s.timeoutCount == 0 && s.eofTries == 0
  }

  /** The window is faithful, EOFReached means that it will never close again, and no counter
      has reached its limit while its state is active. */
  ghost predicate SenderOk(c: Config, s: Sender) {
    && WindowFaithful(c, s)
    && (s.eofReached ==> s.win.current == |c.chunks| && s.win.IsOpen())
    && match s.mode
       case SEND_FILENAME => BeforeData(s)
       case WAIT_FILENAME_ACK => BeforeData(s)
       case SEND_DATA => s.timeoutCount == 0 && s.eofTries == 0
       case PROCESS_ACKS => s.timeoutCount == 0 && s.eofTries == 0
       case WINDOW_CLOSED => !s.win.IsOpen() && s.timeoutCount < MAX_TRIES && s.eofTries == 0
       case SEND_EOF => s.eofReached && s.win.lower == s.win.current && s.eofTries < MAX_TRIES
       case WAIT_EOF_ACK => s.eofReached && s.win.lower == s.win.current && s.eofTries < MAX_TRIES
       case DONE => true
  }

  lemma InitialSenderOk(c: Config)
    requires c.Ok()
    ensures SenderOk(c, InitialSender(c))
  {
  }

  lemma SendDataKeepsOk(c: Config, s: Sender, i: Input)
    requires c.Ok() && SenderOk(c, s) && s.mode == SEND_DATA
    ensures SenderOk(c, SendDataStep(c, s, i).next)
  {
    if !s.eofReached && s.win.IsOpen() && !i.ReadFails? && s.filePos < |c.chunks| {
      var pdu := DataPdu(s.win.current, c.chunks[s.filePos]);
      assert c.chunks[s.filePos] in c.chunks;
      AddKeepsOk(s.win, pdu);
      assert WindowFaithful(c, SendDataStep(c, s, i).next);
    }
  }

  lemma ProcessAcksKeepsOk(c: Config, s: Sender, i: Input)
    requires c.Ok() && SenderOk(c, s) && s.mode == PROCESS_ACKS
    ensures SenderOk(c, ProcessAcksStep(s, i).next)
  {
    if i.Arrived? && IsControl(i.p, FLAG_RR) {
      AckRRKeepsOk(s.win, ControlNumber(i.p));
      assert WindowFaithful(c, ProcessAcksStep(s, i).next);
    }
  }

  lemma OthersKeepOk(c: Config, s: Sender, i: Input)
    requires c.Ok() && SenderOk(c, s) && s.mode != SEND_DATA && s.mode != PROCESS_ACKS
    ensures SenderOk(c, SenderStep(c, s, i).next)
  {
    hide EncodePdu, FilenamePayload, Usable;
    assert SenderStep(c, s, i).next.win == s.win;
  }

  lemma StepKeepsSenderOk(c: Config, s: Sender, i: Input)
    requires c.Ok() && SenderOk(c, s)
    ensures SenderOk(c, SenderStep(c, s, i).next)
  {
    if s.mode == SEND_DATA {
      SendDataKeepsOk(c, s, i);
    } else if s.mode == PROCESS_ACKS {
      ProcessAcksKeepsOk(c, s, i);
    } else {
      OthersKeepOk(c, s, i);
    }
  }

  /** Whatever arrives, in every order and amount, the sender keeps its invariant: after any
      sequence of sends, RRs and SREJs the window is the map from exactly lower..current-1 to
      the PDUs first sent. */
  lemma {:induction false} RunKeepsSenderOk(c: Config, s: Sender, inputs: seq<Input>)
    requires c.Ok() && SenderOk(c, s)
    ensures SenderOk(c, RunSender(c, s, inputs).next)
    decreases inputs
  {
    if inputs != [] {
      var before := inputs[..|inputs| - 1];
      RunKeepsSenderOk(c, s, before);
      StepKeepsSenderOk(c, RunSender(c, s, before).next, inputs[|inputs| - 1]);
    }
  }
}

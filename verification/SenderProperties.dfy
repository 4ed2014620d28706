/** What the sender's state machine does over whole runs. */
module SenderProperties {
  import opened Bytes
  import opened Checksum
  import opened Pdu
  import opened Ring
  import opened SenderWindow
  import opened SenderSpec

  // ---------------------------------------------------------------- what is sent

  /** Fresh data goes out once per number, in order; an SREJ for a held number, and a timeout at
      a closed window, bring back the PDU first sent, byte for byte; nothing else is sent
      between the handshakes. */
  lemma DataSent(c: Config, s: Sender, i: Input)
    requires c.Ok() && SenderOk(c, s)
    ensures var step := SenderStep(c, s, i);
            var n := step.next.win.current;
            match s.mode
            case SEND_DATA =>
              if n == s.win.current then step.out == []
              else n == s.win.current + 1 && step.out == [DataPdu(s.win.current, c.chunks[s.win.current])]
            case PROCESS_ACKS =>
              && n == s.win.current
              && (var wanted := i.Arrived? && IsControl(i.p, FLAG_SREJ) && s.win.lower <= ControlNumber(i.p) < n;
                  step.out == if wanted then [DataPdu(ControlNumber(i.p), c.chunks[ControlNumber(i.p)])] else [])
            case WINDOW_CLOSED =>
              && n == s.win.current
              && step.out == if i.Arrived? then [] else [DataPdu(s.win.lower, c.chunks[s.win.lower])]
            case _ => n == s.win.current
  {
    hide EncodePdu, FilenamePayload, Usable;
    var k := if s.mode == PROCESS_ACKS && i.Arrived? && IsControl(i.p, FLAG_SREJ) then ControlNumber(i.p) else s.win.lower;
    assert s.win.lower <= k < s.win.current ==> s.win.held[k] == DataPdu(k, c.chunks[k]);
  }

  // ---------------------------------------------------------------- a silent network

  /** The state after `k` calls of state functions during which nothing arrives. */
  function SilentRun(c: Config, s: Sender, k: nat): Sender {
    if k == 0 then s else SenderStep(c, SilentRun(c, s, k - 1), Quiet).next
  }

  /** Part of the file is unacknowledged and the whole rest of it fits in the window: the
      window never closes again, so no timeout is ever taken. */
  predicate Stuck(c: Config, s: Sender) {
    && (s.mode == SEND_DATA || s.mode == PROCESS_ACKS)
    && s.win.lower < |c.chunks| < s.win.lower + s.win.size
  }

  /** A bound on the calls that remain: two for every number the window still has room for, two
      for every filename or EOF try that is left, one for every timeout that is left. */
  function Rank(s: Sender): int {
    var room := 2 * (s.win.lower + s.win.size - s.win.current);
    var eofRank := 2 * (MAX_TRIES - s.eofTries);
    match s.mode
    case SEND_FILENAME => 2 * (MAX_TRIES - s.filenameTries)
    case WAIT_FILENAME_ACK => 2 * (MAX_TRIES - s.filenameTries) - 1
    case SEND_DATA => room + 31 - s.timeoutCount
    case PROCESS_ACKS => room + 32 - s.timeoutCount
    case WINDOW_CLOSED => MAX_TRIES - s.timeoutCount
    case SEND_EOF => eofRank
    case WAIT_EOF_ACK => eofRank - 1
    case DONE => 0
  }

  lemma SilentStepDescends(c: Config, s: Sender)
    requires c.Ok() && SenderOk(c, s) && !Stuck(c, s)
    ensures var s' := SenderStep(c, s, Quiet).next;
            SenderOk(c, s') && !Stuck(c, s') && if s.mode == DONE then s' == s else 0 <= Rank(s') < Rank(s)
  {
    hide EncodePdu, FilenamePayload;
    StepKeepsSenderOk(c, s, Quiet);
  }

  lemma RankNonNegative(c: Config, s: Sender)
    requires SenderOk(c, s)
    ensures Rank(s) >= 0
  {
  }

  lemma {:induction false} SilentDescent(c: Config, s: Sender, k: nat)
    requires c.Ok() && SenderOk(c, s) && !Stuck(c, s)
    ensures var s' := SilentRun(c, s, k);
            SenderOk(c, s') && !Stuck(c, s') && Rank(s') >= 0 && (s'.mode == DONE || Rank(s') + k <= Rank(s))
  {
    hide SenderStep, SenderOk, Stuck, Rank;
    RankNonNegative(c, s);
    if k > 0 {
      SilentDescent(c, s, k - 1);
      SilentStepDescends(c, SilentRun(c, s, k - 1));
    }
  }

  /** In a stuck state nothing that was sent is sent again, and once the file is exhausted
      nothing at all is sent. */
  lemma StuckStep(c: Config, s: Sender)
    requires c.Ok() && SenderOk(c, s) && Stuck(c, s)
    ensures var step := SenderStep(c, s, Quiet);
            && SenderOk(c, step.next) && Stuck(c, step.next) && step.next.win.lower == s.win.lower
            && (step.out == [] || (!s.eofReached && step.out == [DataPdu(s.win.current, c.chunks[s.win.current])]))
  {
    StepKeepsSenderOk(c, s, Quiet);
  }

  lemma {:induction false} StuckForever(c: Config, s: Sender, k: nat)
    requires c.Ok() && SenderOk(c, s) && Stuck(c, s)
    ensures var s' := SilentRun(c, s, k);
            SenderOk(c, s') && Stuck(c, s') && s'.win.lower == s.win.lower
  {
    hide SenderStep, WindowFaithful;
    if k > 0 {
      StuckForever(c, s, k - 1);
      StuckStep(c, SilentRun(c, s, k - 1));
    }
  }

  /** With nothing arriving, the sender terminates exactly from the states that are not stuck,
      and then within Rank(s) calls. */
  lemma SilentTermination(c: Config, s: Sender)
    requires c.Ok() && SenderOk(c, s)
    ensures Rank(s) >= 0
    ensures (exists k: nat :: SilentRun(c, s, k).mode == DONE) <==> !Stuck(c, s)
    ensures !Stuck(c, s) ==> SilentRun(c, s, Rank(s)).mode == DONE
  {
    RankNonNegative(c, s);
    if Stuck(c, s) {
      forall k: nat ensures SilentRun(c, s, k).mode != DONE {
        StuckForever(c, s, k);
      }
    } else {
      SilentDescent(c, s, Rank(s));
      var s' := SilentRun(c, s, Rank(s));
      if s'.mode != DONE {
        SilentStepDescends(c, s');
      }
    }
  }

  // ---------------------------------------------------------------- the end of file handshake

  function EofRank(s: Sender): int {
    match s.mode
    case SEND_EOF => 2 * (MAX_TRIES - s.eofTries)
    case WAIT_EOF_ACK => 2 * (MAX_TRIES - s.eofTries) - 1
    case _ => 0
  }

  function EofsLeft(s: Sender): int {
    match s.mode
    case SEND_EOF => MAX_TRIES - s.eofTries
    case WAIT_EOF_ACK => MAX_TRIES - s.eofTries - 1
    case _ => 0
  }

  /** How many PDUs of a list carry a flag. */
  function CountFlag(out: seq<Octets>, flag: byte): nat {
    if out == [] then 0
    else CountFlag(out[..|out| - 1], flag) + if |out[|out| - 1]| >= HEADER_LEN && Flag(out[|out| - 1]) == flag then 1 else 0
  }

  predicate InEofHandshake(s: Sender) {
    s.mode == SEND_EOF || s.mode == WAIT_EOF_ACK || s.mode == DONE
  }

  lemma EofStep(c: Config, s: Sender, i: Input)
    requires c.Ok() && SenderOk(c, s) && InEofHandshake(s)
    ensures var step := SenderStep(c, s, i);
            && InEofHandshake(step.next)
            && (s.mode == DONE ==> step == Step(s, []))
            && (s.mode != DONE ==> EofRank(step.next) < EofRank(s))
            && |step.out| <= 1
            && CountFlag(step.out, FLAG_EOF) + EofsLeft(step.next) <= EofsLeft(s)
  {
    var step := SenderStep(c, s, i);
    if s.mode == SEND_EOF {
      PduRoundTrip(Little, s.controlSeqNum, FLAG_EOF, []);
    } else if s.mode == WAIT_EOF_ACK {
      PduRoundTrip(Little, s.controlSeqNum, FLAG_FINAL_ACK, []);
    }
    assert |step.out| == 1 ==> step.out[..0] == [];
  }

  lemma CountFlagAppend(a: seq<Octets>, b: seq<Octets>, flag: byte)
    requires |b| <= 1
    ensures CountFlag(a + b, flag) == CountFlag(a, flag) + CountFlag(b, flag)
  {
    if b == [] {
      assert a + b == a;
    } else {
      assert (a + b)[..|a|] == a && b[..0] == [];
    }
  }

  /** Once EOF is due, the sender is done after at most twenty calls of state functions and ten
      EOF packets, whatever arrives. */
  lemma {:induction false} EofHandshakeEnds(c: Config, s: Sender, inputs: seq<Input>)
    requires c.Ok() && SenderOk(c, s) && InEofHandshake(s)
    ensures var r := RunSender(c, s, inputs);
            && InEofHandshake(r.next) && SenderOk(c, r.next)
            && (r.next.mode != DONE ==> EofRank(r.next) + |inputs| <= EofRank(s))
            && CountFlag(r.out, FLAG_EOF) + EofsLeft(r.next) <= EofsLeft(s)
    ensures |inputs| >= 2 * MAX_TRIES ==> RunSender(c, s, inputs).next.mode == DONE
    ensures CountFlag(RunSender(c, s, inputs).out, FLAG_EOF) <= MAX_TRIES
    decreases inputs
  {
    if inputs != [] {
      var front, i := inputs[..|inputs| - 1], inputs[|inputs| - 1];
      EofHandshakeEnds(c, s, front);
      var before := RunSender(c, s, front);
      EofStep(c, before.next, i);
      StepKeepsSenderOk(c, before.next, i);
      CountFlagAppend(before.out, SenderStep(c, before.next, i).out, FLAG_EOF);
    }
  }

  // ---------------------------------------------------------------- batches of acknowledgements

  predicate IsAck(i: Input) {
    i.Arrived? && (IsControl(i.p, FLAG_RR) || IsControl(i.p, FLAG_SREJ))
  }

  /** The number an RR acknowledges up to; 0 acknowledges nothing. */
  function RRNumber(i: Input): nat {
    if i.Arrived? && IsControl(i.p, FLAG_RR) then ControlNumber(i.p) else 0
  }

  function MaxRR(inputs: seq<Input>): nat {
    if inputs == [] then 0
    else
      var m, n := MaxRR(inputs[..|inputs| - 1]), RRNumber(inputs[|inputs| - 1]);
      if n > m then n else m
  }

  predicate SomeAck(inputs: seq<Input>) {
    exists i | i in inputs :: IsAck(i)
  }

  lemma AckRRTwice(w: WindowView, m: nat, n: nat)
    requires w.Ok()
    ensures w.AckRR(m).AckRR(n) == w.AckRR(if n > m then n else m)
  {
    assert From(w.held, w.lower) == w.held;
    var m' := if m > w.current then w.current else m;
    var n' := if n > w.current then w.current else n;
    if m' <= n' {
      assert From(From(w.held, m'), n') == From(w.held, n');
    }
  }

  /** Draining any list of packets has the effect of its largest RR alone; SREJs and noise
      leave the window as it is. */
  lemma {:induction false} BatchEffect(c: Config, s: Sender, batch: seq<Input>)
    requires s.win.Ok() && s.mode == PROCESS_ACKS && forall i :: i in batch ==> i.Arrived?
    ensures RunSender(c, s, batch).next ==
            s.(win := s.win.AckRR(MaxRR(batch)), timeoutCount := if SomeAck(batch) then 0 else s.timeoutCount)
    decreases batch
  {
    if batch != [] {
      var front, i := batch[..|batch| - 1], batch[|batch| - 1];
      assert batch == front + [i] && i in batch;
      BatchEffect(c, s, front);
      AckRRTwice(s.win, MaxRR(front), RRNumber(i));
      assert SomeAck(batch) <==> SomeAck(front) || IsAck(i);
      var before := RunSender(c, s, front).next;
      assert SenderStep(c, before, i) == ProcessAcksStep(before, i);
    }
  }

  lemma {:induction false} MaxRRIsMaximum(batch: seq<Input>)
    ensures forall i :: i in batch ==> RRNumber(i) <= MaxRR(batch)
    ensures MaxRR(batch) == 0 || exists i :: i in batch && RRNumber(i) == MaxRR(batch)
    decreases batch
  {
    if batch != [] {
      var front, i := batch[..|batch| - 1], batch[|batch| - 1];
      MaxRRIsMaximum(front);
      assert batch == front + [i];
    }
  }

  lemma SameMembersSameMaximum(a: seq<Input>, b: seq<Input>)
    requires forall i :: i in a <==> i in b
    ensures MaxRR(a) == MaxRR(b)
  {
    MaxRRIsMaximum(a);
    MaxRRIsMaximum(b);
  }

  /** Acknowledgement batches with the same members, in any order and with any duplicates,
      leave the sender in the same state. */
  lemma BatchOrderIrrelevant(c: Config, s: Sender, a: seq<Input>, b: seq<Input>)
    requires s.win.Ok() && s.mode == PROCESS_ACKS
    requires forall i :: i in a ==> i.Arrived?
    requires forall i :: i in a <==> i in b
    ensures RunSender(c, s, a).next == RunSender(c, s, b).next
    ensures var w := RunSender(c, s, a).next.win;
            w.lower == if MaxRR(a) <= s.win.lower then s.win.lower
                       else if MaxRR(a) > s.win.current then s.win.current else MaxRR(a)
  {
    BatchEffect(c, s, a);
    BatchEffect(c, s, b);
    SameMembersSameMaximum(a, b);
  }
}

/** What the client says and hears, over whole runs: the exact exchange of each handshake. */
module ClientConversation {
  import opened Bytes
  import opened Checksum
  import opened Pdu
  import opened SenderWindow
  import opened SenderSpec
  import opened SenderProperties
  import opened Transfer
  import opened Recovery

  // ---------------------------------------------------------------- runs in parts

  lemma {:induction false} RunSenderAppend(c: Config, s: Sender, a: seq<Input>, b: seq<Input>)
    ensures var first := RunSender(c, s, a);
            var second := RunSender(c, first.next, b);
            RunSender(c, s, a + b) == Step(second.next, first.out + second.out)
    decreases b
  {
    hide SenderStep;
    if b == [] {
      assert a + b == a;
    } else {
      var front := b[..|b| - 1];
      RunSenderAppend(c, s, a, front);
      assert (a + b)[..|a + b| - 1] == a + front;
    }
  }

  lemma RunOne(c: Config, s: Sender, i: Input)
    ensures RunSender(c, s, [i]) == SenderStep(c, s, i)
  {
    hide SenderStep;
    assert [i][..0] == [];
    assert RunSender(c, s, []) == Step(s, []);
  }

  /** A client that is done says nothing more, whatever arrives. */
  lemma {:induction false} DoneForever(c: Config, s: Sender, inputs: seq<Input>)
    requires s.mode == DONE
    ensures RunSender(c, s, inputs) == Step(s, [])
    decreases inputs
  {
    if inputs != [] {
      DoneForever(c, s, inputs[..|inputs| - 1]);
    }
  }

  // ---------------------------------------------------------------- the filename handshake

  /** Something arrives that is no usable filename response. */
  predicate IsChatter(i: Input) {
    i.Arrived? && (!Usable(i.p) || Flag(i.p) != FLAG_FILENAME_RESPONSE)
  }

  /** The server could not open the output file: a byte other than zero follows the header. */
  predicate IsRefusal(i: Input) {
    i.Arrived? && Usable(i.p) && Flag(i.p) == FLAG_FILENAME_RESPONSE && |i.p| > 7 && i.p[7] != 0
  }

  predicate IsAccepted(i: Input) {
    i.Arrived? && Usable(i.p) && Flag(i.p) == FLAG_FILENAME_RESPONSE && (|i.p| > 7 ==> i.p[7] == 0)
  }

  /** One request, chatter for as long as any comes, and what ends the wait. */
  datatype Wait = Wait(call: Input, chatter: seq<Input>, end: Input)

  function AllInputs(waits: seq<Wait>): seq<Input> {
    if waits == [] then []
    else
      var w := waits[|waits| - 1];
      AllInputs(waits[..|waits| - 1]) + [w.call] + w.chatter + [w.end]
  }

  /** Nobody answers. */
  predicate InVain(w: Wait) {
    (forall i :: i in w.chatter ==> IsChatter(i)) && !w.end.Arrived?
  }

  /** The `k`-th request. */
  function Request(c: Config, k: nat): Octets {
    EncodePdu(Little, ToU32(k), FLAG_FILENAME, FilenamePayload(c.windowSize, c.bufferSize, c.toFile))
  }

  /** The client after `k` waits in vain. */
  ghost predicate Asked(c: Config, r: Step, mode: Mode, tries: nat, requests: nat) {
    && r.next == InitialSender(c).(mode := mode, filenameTries := tries, controlSeqNum := ToU32(requests))
    && |r.out| == requests && forall j: nat :: j < requests ==> r.out[j] == Request(c, j)
  }

  lemma {:induction false} ChatterIsIgnored(c: Config, s: Sender, chatter: seq<Input>)
    requires s.mode == WAIT_FILENAME_ACK && forall i :: i in chatter ==> IsChatter(i)
    ensures RunSender(c, s, chatter) == Step(s, [])
    decreases chatter
  {
    hide Usable, EncodePdu, FilenamePayload;
    if chatter != [] {
      var n := |chatter| - 1;
      assert chatter == chatter[..n] + [chatter[n]];
      ChatterIsIgnored(c, s, chatter[..n]);
      assert IsChatter(chatter[n]);
    }
  }

  lemma AskOnce(c: Config, before: seq<Input>, k: nat, call: Input)
    requires Asked(c, RunSender(c, InitialSender(c), before), SEND_FILENAME, k, k)
    ensures Asked(c, RunSender(c, InitialSender(c), before + [call]), WAIT_FILENAME_ACK, k, k + 1)
  {
    hide Usable, EncodePdu, FilenamePayload, RunSender;
    var r := RunSender(c, InitialSender(c), before);
    RunSenderNext(c, InitialSender(c), before, call);
    IncrementWraps(ToU32(k), k);
    assert SenderStep(c, r.next, call) == SendFilenameStep(c, r.next);
  }

  /** A further request, and chatter: the client waits. */
  lemma AskAgain(c: Config, before: seq<Input>, k: nat, call: Input, chatter: seq<Input>)
    requires Asked(c, RunSender(c, InitialSender(c), before), SEND_FILENAME, k, k)
    requires forall i :: i in chatter ==> IsChatter(i)
    ensures Asked(c, RunSender(c, InitialSender(c), before + [call] + chatter), WAIT_FILENAME_ACK, k, k + 1)
  {
    hide RunSender, IsChatter, Request;
    AskOnce(c, before, k, call);
    var asked := RunSender(c, InitialSender(c), before + [call]);
    ChatterIsIgnored(c, asked.next, chatter);
    RunSenderAppend(c, InitialSender(c), before + [call], chatter);
    assert asked.out + [] == asked.out;
  }

  /** What ends a wait: silence, consent or refusal. */
  lemma EndOfWait(c: Config, inputs: seq<Input>, k: nat, end: Input)
    requires Asked(c, RunSender(c, InitialSender(c), inputs), WAIT_FILENAME_ACK, k, k + 1)
    ensures var r := RunSender(c, InitialSender(c), inputs + [end]);
            && (!end.Arrived? ==> Asked(c, r, if k + 1 >= 10 then DONE else SEND_FILENAME, k + 1, k + 1))
            && (IsAccepted(end) ==> Asked(c, r, SEND_DATA, 0, k + 1))
            && (IsRefusal(end) ==> Asked(c, r, DONE, k, k + 1))
  {
    hide ChecksumOk, EncodePdu, FilenamePayload, RunSender;
    var r := RunSender(c, InitialSender(c), inputs);
    RunSenderNext(c, InitialSender(c), inputs, end);
    assert SenderStep(c, r.next, end) == WaitFilenameAckStep(r.next, end);
    assert r.out + [] == r.out;
  }

  /** The client asks once per wait, with consecutive numbers, whatever else arrives; after the
      tenth wait in vain it gives up. */
  lemma {:induction false} TenRequests(c: Config, waits: seq<Wait>)
    requires |waits| <= 10 && forall w :: w in waits ==> InVain(w)
    ensures Asked(c, RunSender(c, InitialSender(c), AllInputs(waits)),
                  if |waits| == 10 then DONE else SEND_FILENAME, |waits|, |waits|)
    decreases waits
  {
    if waits == [] {
      assert AllInputs(waits) == [];
    } else {
      hide IsChatter, RunSender, Asked, IsAccepted, IsRefusal;
      var k := |waits| - 1;
      var front, w := waits[..k], waits[k];
      assert InVain(w);
      TenRequests(c, front);
      AskAgain(c, AllInputs(front), k, w.call, w.chatter);
      EndOfWait(c, AllInputs(front) + [w.call] + w.chatter, k, w.end);
    }
  }

  /** An answer that comes before the client has given up ends the handshake: with consent it
      goes on to the data, with a refusal it is done, and it sends nothing of itself. */
  lemma AnsweredHandshake(c: Config, waits: seq<Wait>, w: Wait)
    requires |waits| < 10 && (forall w :: w in waits ==> InVain(w)) && (forall i :: i in w.chatter ==> IsChatter(i))
    requires IsAccepted(w.end) || IsRefusal(w.end)
    ensures var r := RunSender(c, InitialSender(c), AllInputs(waits) + [w.call] + w.chatter + [w.end]);
            && (IsAccepted(w.end) ==> Asked(c, r, SEND_DATA, 0, |waits| + 1))
            && (IsRefusal(w.end) ==> Asked(c, r, DONE, |waits|, |waits| + 1))
  {
    hide IsChatter, IsAccepted, IsRefusal, RunSender, Asked;
    TenRequests(c, waits);
    AskAgain(c, AllInputs(waits), |waits|, w.call, w.chatter);
    EndOfWait(c, AllInputs(waits) + [w.call] + w.chatter, |waits|, w.end);
  }

  /** In any run, a refusal that the waiting client observes ends it for good: it is done, and
      nothing that comes later makes it send anything. */
  lemma RefusalEndsTheRun(c: Config, inputs: seq<Input>, i: Input, more: seq<Input>)
    requires RunSender(c, InitialSender(c), inputs).next.mode == WAIT_FILENAME_ACK && IsRefusal(i)
    ensures var before, after := RunSender(c, InitialSender(c), inputs), RunSender(c, InitialSender(c), inputs + [i] + more);
            after.next.mode == DONE && after.out == before.out
  {
    hide ChecksumOk, EncodePdu, FilenamePayload, RunSender;
    var r := RunSender(c, InitialSender(c), inputs);
    RunSenderNext(c, InitialSender(c), inputs, i);
    assert SenderStep(c, r.next, i) == WaitFilenameAckStep(r.next, i);
    DoneForever(c, RunSender(c, InitialSender(c), inputs + [i]).next, more);
    RunSenderAppend(c, InitialSender(c), inputs + [i], more);
    assert r.out + [] + [] == r.out;
  }

  // ---------------------------------------------------------------- a closed window

  /** At a closed window every silent wait resends the lowest packet, ten times at most: after the
      tenth the client gives up. */
  lemma {:induction false} TenResends(c: Config, s: Sender, silence: seq<Input>)
    requires c.Ok() && SenderOk(c, s) && s.mode == WINDOW_CLOSED && s.timeoutCount == 0
    requires forall i :: i in silence ==> !i.Arrived?
    ensures s.win.lower < |c.chunks|
    ensures var r, n := RunSender(c, s, silence), |silence|;
            && r.next == s.(mode := if n >= 10 then DONE else WINDOW_CLOSED, timeoutCount := if n >= 10 then 10 else n)
            && |r.out| == (if n >= 10 then 10 else n)
            && forall j :: 0 <= j < |r.out| ==> r.out[j] == DataPdu(s.win.lower, c.chunks[s.win.lower])
    decreases silence
  {
    hide EncodePdu, FilenamePayload, Usable;
    assert s.win.lower in s.win.held;
    if silence != [] {
      var n := |silence| - 1;
      assert silence == silence[..n] + [silence[n]];
      TenResends(c, s, silence[..n]);
    }
  }

  /** An arrival that does not slide the window starts the count afresh. */
  lemma CountStartsAfresh(c: Config, s: Sender, p: Octets, tries: nat)
    requires c.Ok() && SenderOk(c, s) && s.mode == WINDOW_CLOSED && tries < 10
    ensures RunSender(c, s.(timeoutCount := tries), [Arrived(p), Quiet]) == Step(s.(timeoutCount := 0), [])
  {
    hide EncodePdu, FilenamePayload, Usable;
    var t := s.(timeoutCount := tries);
    RunOne(c, t, Arrived(p));
    RunSenderNext(c, t, [Arrived(p)], Quiet);
    assert [Arrived(p)] + [Quiet] == [Arrived(p), Quiet];
  }

  /** A read error ends the client: what was sent before is all. */
  lemma ReadErrorEndsTheRun(c: Config, s: Sender, more: seq<Input>)
    requires s.mode == SEND_DATA && !s.eofReached && s.win.IsOpen()
    ensures RunSender(c, s, [ReadFails] + more) == Step(s.(mode := DONE), [])
  {
    hide EncodePdu, FilenamePayload, Usable;
    RunOne(c, s, ReadFails);
    DoneForever(c, s.(mode := DONE), more);
    RunSenderAppend(c, s, [ReadFails], more);
  }

  // ---------------------------------------------------------------- the end of file handshake

  predicate Confirms(i: Input) {
    i.Arrived? && Usable(i.p) && Flag(i.p) == FLAG_EOF_ACK
  }

  /** The inputs at odd positions are those that the client waits for after an EOF. */
  ghost predicate Unconfirmed(inputs: seq<Input>, n: nat) {
    forall j :: 0 <= j < |inputs| && j < n && j % 2 == 1 ==> !Confirms(inputs[j])
  }

  /** The EOF with the `j`-th number after `first`. */
  function Eof(first: u32, j: nat): Octets {
    EncodePdu(Little, ToU32(first + j), FLAG_EOF, [])
  }

  /** Only EOFs were sent, with consecutive numbers. */
  ghost predicate OnlyEofs(out: seq<Octets>, first: u32) {
    forall j: nat :: j < |out| ==> out[j] == Eof(first, j)
  }

  /** `n` calls after SEND_EOF, without a confirmation. */
  ghost predicate Insisting(s: Sender, r: Step, n: nat) {
    && |r.out| == (if n >= 20 then 10 else (n + 1) / 2) && OnlyEofs(r.out, s.controlSeqNum)
    && r.next == s.(mode := if n >= 20 then DONE else if n % 2 == 0 then SEND_EOF else WAIT_EOF_ACK,
                    eofTries := if n >= 20 then 10 else n / 2,
                    controlSeqNum := ToU32(s.controlSeqNum + |r.out|))
  }

  lemma InsistOnce(c: Config, s: Sender, r: Step, n: nat, i: Input)
    requires Insisting(s, r, n) && (n < 20 && n % 2 == 1 ==> !Confirms(i))
    ensures var last := SenderStep(c, r.next, i);
            Insisting(s, Step(last.next, r.out + last.out), n + 1)
  {
    hide EncodePdu, FilenamePayload, Usable;
    IncrementWraps(r.next.controlSeqNum, s.controlSeqNum + |r.out|);
    if n < 20 && n % 2 == 0 {
      assert SenderStep(c, r.next, i) == SendEofStep(r.next);
      assert SenderStep(c, r.next, i).out == [Eof(s.controlSeqNum, |r.out|)];
    } else if n < 20 {
      assert SenderStep(c, r.next, i) == WaitEofAckStep(r.next, i);
      assert r.out + [] == r.out;
    } else {
      assert r.out + [] == r.out;
    }
  }

  /** Without a confirmation one EOF goes out for each wait, ten in all; then the client is done. */
  lemma {:induction false} TenEofs(c: Config, s: Sender, inputs: seq<Input>)
    requires s.mode == SEND_EOF && s.eofTries == 0 && Unconfirmed(inputs, 20)
    ensures Insisting(s, RunSender(c, s, inputs), |inputs|)
    decreases inputs
  {
    if inputs == [] {
      assert ToU32(s.controlSeqNum) == s.controlSeqNum;
    } else {
      hide SenderStep, Confirms, Insisting;
      var n := |inputs| - 1;
      assert forall j :: 0 <= j < n ==> inputs[..n][j] == inputs[j];
      TenEofs(c, s, inputs[..n]);
      InsistOnce(c, s, RunSender(c, s, inputs[..n]), n, inputs[n]);
    }
  }

  /** As many EOFs as there were waits, then one FINAL_ACK, and the client is done. */
  ghost predicate Confirmed(s: Sender, r: Step, k: nat) {
    && r.next.mode == DONE && r.next.win == s.win && |r.out| == k + 2
    && OnlyEofs(r.out[..k + 1], s.controlSeqNum)
    && r.out[k + 1] == EncodePdu(Little, ToU32(s.controlSeqNum + k + 1), FLAG_FINAL_ACK, [])
  }

  lemma ConfirmOnce(c: Config, s: Sender, r: Step, k: nat, i: Input)
    requires Insisting(s, r, 2 * k + 1) && k < 10 && Confirms(i)
    ensures var last := SenderStep(c, r.next, i);
            Confirmed(s, Step(last.next, r.out + last.out), k)
  {
    hide EncodePdu, FilenamePayload, ChecksumOk;
    assert SenderStep(c, r.next, i) == WaitEofAckStep(r.next, i);
    var last := SenderStep(c, r.next, i);
    assert (r.out + last.out)[..k + 1] == r.out;
  }

  /** The first confirmation that the client waits for ends the handshake. */
  lemma ConfirmedEof(c: Config, s: Sender, inputs: seq<Input>, k: nat)
    requires s.mode == SEND_EOF && s.eofTries == 0
    requires k < 10 && 2 * k + 1 < |inputs| && Unconfirmed(inputs, 2 * k + 1) && Confirms(inputs[2 * k + 1])
    ensures Confirmed(s, RunSender(c, s, inputs), k)
  {
    hide SenderStep, Confirms, Insisting, RunSender;
    var n := 2 * k + 1;
    var front, rest := inputs[..n], inputs[n + 1..];
    assert forall j :: 0 <= j < n ==> front[j] == inputs[j];
    TenEofs(c, s, front);
    ConfirmOnce(c, s, RunSender(c, s, front), k, inputs[n]);
    RunSenderNext(c, s, front, inputs[n]);
    var r := RunSender(c, s, front + [inputs[n]]);
    DoneForever(c, r.next, rest);
    RunSenderAppend(c, s, front + [inputs[n]], rest);
    assert front + [inputs[n]] + rest == inputs && r.out + [] == r.out;
  }

  /** Exactly when the end of file handshake is over: a confirmation was observed in one of ten
      waits, or all ten have passed. */
  lemma EofHandshakeIsOver(c: Config, s: Sender, inputs: seq<Input>)
    requires s.mode == SEND_EOF && s.eofTries == 0
    ensures RunSender(c, s, inputs).next.mode == DONE
            <==> |inputs| >= 20 || exists j :: 0 <= j < |inputs| && j < 20 && j % 2 == 1 && Confirms(inputs[j])
  {
    hide Confirms, RunSender;
    if Unconfirmed(inputs, 20) {
      TenEofs(c, s, inputs);
    } else {
      var k := FirstConfirmed(inputs);
      ConfirmedEof(c, s, inputs, k);
    }
  }

  lemma FirstConfirmed(inputs: seq<Input>) returns (k: nat)
    requires !Unconfirmed(inputs, 20)
    ensures k < 10 && 2 * k + 1 < |inputs| && Unconfirmed(inputs, 2 * k + 1) && Confirms(inputs[2 * k + 1])
  {
    hide Confirms;
    k := 0;
    while 2 * k + 1 < |inputs| && k < 10 && !Confirms(inputs[2 * k + 1])
      invariant k <= 10 && Unconfirmed(inputs, 2 * k + 1)
      decreases 10 - k
    {
      k := k + 1;
    }
  }

  // ---------------------------------------------------------------- how whole runs end

  /** What has been sent of the end of file handshake, by where the client stands. */
  ghost predicate Ledger(c: Config, r: Step) {
    var eofs, finals := CountFlag(r.out, FLAG_EOF), CountFlag(r.out, FLAG_FINAL_ACK);
    match r.next.mode
    case SEND_EOF => eofs == r.next.eofTries && finals == 0
    case WAIT_EOF_ACK => eofs == r.next.eofTries + 1 && finals == 0
    case DONE =>
      if AllAcknowledged(c, r.next) then (eofs == 10 && finals == 0) || (1 <= eofs <= 10 && finals == 1)
      else eofs == 0 && finals == 0
    case _ => eofs == 0 && finals == 0
  }

  lemma FlagsOfStep(c: Config, s: Sender, i: Input)
    requires c.Ok() && SenderOk(c, s)
    ensures var out := SenderStep(c, s, i).out;
            && |out| <= 1
            && CountFlag(out, FLAG_EOF) == (if s.mode == SEND_EOF then 1 else 0)
            && CountFlag(out, FLAG_FINAL_ACK) == (if s.mode == WAIT_EOF_ACK && Confirms(i) then 1 else 0)
  {
    hide EncodePdu, FilenamePayload, ChecksumOk;
    var n, lower, current := s.controlSeqNum, s.win.lower, s.win.current;
    DataSent(c, s, i);
    PduRoundTrip(Little, n, FLAG_FILENAME, FilenamePayload(c.windowSize, c.bufferSize, c.toFile));
    PduRoundTrip(Little, n, FLAG_EOF, []);
    PduRoundTrip(Little, n, FLAG_FINAL_ACK, []);
    PduRoundTrip(Little, ToU32(current), FLAG_DATA, if current < |c.chunks| then c.chunks[current] else []);
    PduRoundTrip(Little, ToU32(lower), FLAG_DATA, if lower < |c.chunks| then c.chunks[lower] else []);
    if i.Arrived? && IsControl(i.p, FLAG_SREJ) && ControlNumber(i.p) < |c.chunks| {
      PduRoundTrip(Little, ToU32(ControlNumber(i.p)), FLAG_DATA, c.chunks[ControlNumber(i.p)]);
    }
    var out := SenderStep(c, s, i).out;
    assert |out| == 1 ==> out[..0] == [];
  }

  /** Where the client can go, and whether everything is then acknowledged. */
  lemma EndingSteps(c: Config, s: Sender, i: Input)
    requires c.Ok() && SenderOk(c, s)
    ensures var s' := SenderStep(c, s, i).next;
            && SenderOk(c, s')
            && (s.mode == SEND_EOF || s.mode == WAIT_EOF_ACK ==> AllAcknowledged(c, s) && AllAcknowledged(c, s'))
            && (s.mode == SEND_EOF ==> s'.mode == WAIT_EOF_ACK && s'.eofTries == s.eofTries < 10)
            && (s.mode == WAIT_EOF_ACK ==> s.eofTries < 10)
            && (s.mode == WAIT_EOF_ACK ==>
                  if Confirms(i) then s'.mode == DONE
                  else s'.eofTries == s.eofTries + 1 && s'.mode == if s'.eofTries == 10 then DONE else SEND_EOF)
            && (s.mode == DONE ==> s' == s)
            && (InHandshake(s) || InData(s) ==>
                  s'.mode != WAIT_EOF_ACK && (s'.mode == SEND_EOF ==> s'.eofTries == 0)
                  && (s'.mode == DONE ==> !AllAcknowledged(c, s')))
  {
    hide EncodePdu, FilenamePayload, ChecksumOk;
    StepKeepsSenderOk(c, s, i);
  }

  lemma LedgerStep(c: Config, r: Step, i: Input)
    requires c.Ok() && SenderOk(c, r.next) && Ledger(c, r)
    ensures var last := SenderStep(c, r.next, i);
            SenderOk(c, last.next) && Ledger(c, Step(last.next, r.out + last.out))
  {
    hide SenderStep, SenderOk, Confirms, AllAcknowledged, CountFlag;
    EndingSteps(c, r.next, i);
    FlagsOfStep(c, r.next, i);
    CountFlagAppend(r.out, SenderStep(c, r.next, i).out, FLAG_EOF);
    CountFlagAppend(r.out, SenderStep(c, r.next, i).out, FLAG_FINAL_ACK);
  }

  /** After any run: before the end of file handshake no EOF and no FINAL_ACK was sent; in it one
      EOF for every wait; and a client that is done has, if and only if everything was
      acknowledged, sent ten EOFs in vain or at most ten EOFs and one FINAL_ACK. */
  lemma {:induction false} HowRunsEnd(c: Config, inputs: seq<Input>)
    requires c.Ok()
    ensures Ledger(c, RunSender(c, InitialSender(c), inputs)) && SenderOk(c, RunSender(c, InitialSender(c), inputs).next)
    decreases inputs
  {
    hide SenderStep, SenderOk;
    if inputs == [] {
      InitialSenderOk(c);
    } else {
      var n := |inputs| - 1;
      hide Ledger;
      HowRunsEnd(c, inputs[..n]);
      LedgerStep(c, RunSender(c, InitialSender(c), inputs[..n]), inputs[n]);
    }
  }

  /** The client that has read everything and has it acknowledged drains what has arrived, and
      then says EOF: one quiet call later it is due, two calls later it is sent. */
  lemma {:induction false} AcknowledgedIsQuiet(c: Config, s: Sender, batch: seq<Input>)
    requires c.Ok() && SenderOk(c, s) && s.mode == PROCESS_ACKS && AllAcknowledged(c, s)
    requires forall i :: i in batch ==> i.Arrived?
    ensures RunSender(c, s, batch) == Step(s, [])
    decreases batch
  {
    hide EncodePdu, FilenamePayload, ChecksumOk;
    if batch != [] {
      var n := |batch| - 1;
      assert batch == batch[..n] + [batch[n]] && batch[n].Arrived?;
      AcknowledgedIsQuiet(c, s, batch[..n]);
      assert SenderStep(c, s, batch[n]) == ProcessAcksStep(s, batch[n]);
      AckedWindowIsFixed(s.win, if IsControl(batch[n].p, FLAG_RR) then ControlNumber(batch[n].p) else 0);
    }
  }

  lemma AckedWindowIsFixed(w: WindowView, n: nat)
    requires w.Ok() && w.lower == w.current
    ensures w.AckRR(n) == w
  {
  }

  lemma AcknowledgedSaysEof(c: Config, s: Sender, batch: seq<Input>, quiet: Input, next: Input)
    requires c.Ok() && SenderOk(c, s) && s.mode == PROCESS_ACKS && AllAcknowledged(c, s)
    requires (forall i :: i in batch ==> i.Arrived?) && !quiet.Arrived?
    ensures RunSender(c, s, batch + [quiet, next]) ==
            Step(s.(mode := WAIT_EOF_ACK, controlSeqNum := Increment(s.controlSeqNum)),
                 [EncodePdu(Little, s.controlSeqNum, FLAG_EOF, [])])
  {
    hide EncodePdu, FilenamePayload, Usable, RunSender;
    AcknowledgedIsQuiet(c, s, batch);
    TwoCalls(c, s, quiet, next);
    RunSenderAppend(c, s, batch, [quiet, next]);
  }

  lemma TwoCalls(c: Config, s: Sender, a: Input, b: Input)
    ensures var first := SenderStep(c, s, a);
            var second := SenderStep(c, first.next, b);
            RunSender(c, s, [a, b]) == Step(second.next, first.out + second.out)
  {
    hide SenderStep;
    RunOne(c, s, a);
    RunSenderNext(c, s, [a], b);
    assert [a] + [b] == [a, b];
  }

  /** So does the client that finds the end of the file with everything acknowledged. */
  lemma LastReadSaysEof(c: Config, s: Sender, read: Input, next: Input)
    requires c.Ok() && SenderOk(c, s) && s.mode == SEND_DATA && s.win.lower == s.win.current == |c.chunks|
    requires !read.ReadFails?
    ensures RunSender(c, s, [read, next]) ==
            Step(s.(mode := WAIT_EOF_ACK, eofReached := true, controlSeqNum := Increment(s.controlSeqNum)),
                 [EncodePdu(Little, s.controlSeqNum, FLAG_EOF, [])])
  {
    hide EncodePdu, FilenamePayload, Usable;
    TwoCalls(c, s, read, next);
  }

  // ---------------------------------------------------------------- control numbers

  /** The PDUs that are not data. */
  function NotData(out: seq<Octets>): seq<Octets> {
    if out == [] then []
    else
      var p := out[|out| - 1];
      NotData(out[..|out| - 1]) + if |p| >= HEADER_LEN && Flag(p) == FLAG_DATA then [] else [p]
  }

  /** The `k`-th control PDU carries `k` modulo 2^32. */
  ghost predicate Numbered(r: Step) {
    var controls := NotData(r.out);
    && r.next.controlSeqNum == |controls| % 0x1_0000_0000
    && forall k :: 0 <= k < |controls| ==>
         |controls[k]| >= HEADER_LEN && SequenceNum(controls[k]) == k % 0x1_0000_0000
  }

  lemma NumberOfStep(c: Config, s: Sender, i: Input)
    requires c.Ok() && SenderOk(c, s)
    ensures var r := SenderStep(c, s, i);
            && |r.out| <= 1
            && if NotData(r.out) == [] then r.next.controlSeqNum == s.controlSeqNum
               else && NotData(r.out) == r.out && r.next.controlSeqNum == Increment(s.controlSeqNum)
                    && |r.out[0]| >= HEADER_LEN && SequenceNum(r.out[0]) == s.controlSeqNum
  {
    hide EncodePdu, FilenamePayload, ChecksumOk;
    var n, lower, current := s.controlSeqNum, s.win.lower, s.win.current;
    DataSent(c, s, i);
    PduRoundTrip(Little, n, FLAG_FILENAME, FilenamePayload(c.windowSize, c.bufferSize, c.toFile));
    PduRoundTrip(Little, n, FLAG_EOF, []);
    PduRoundTrip(Little, n, FLAG_FINAL_ACK, []);
    PduRoundTrip(Little, ToU32(current), FLAG_DATA, if current < |c.chunks| then c.chunks[current] else []);
    PduRoundTrip(Little, ToU32(lower), FLAG_DATA, if lower < |c.chunks| then c.chunks[lower] else []);
    if i.Arrived? && IsControl(i.p, FLAG_SREJ) && ControlNumber(i.p) < |c.chunks| {
      PduRoundTrip(Little, ToU32(ControlNumber(i.p)), FLAG_DATA, c.chunks[ControlNumber(i.p)]);
    }
    var out := SenderStep(c, s, i).out;
    assert |out| == 1 ==> out[..0] == [];
  }

  lemma NotDataAppend(a: seq<Octets>, b: seq<Octets>)
    requires |b| <= 1
    ensures NotData(a + b) == NotData(a) + NotData(b)
  {
    if b == [] {
      assert a + b == a;
    } else {
      assert (a + b)[..|a|] == a && b[..0] == [];
    }
  }

  lemma NumberedStep(c: Config, r: Step, i: Input)
    requires c.Ok() && SenderOk(c, r.next) && Numbered(r)
    ensures var last := SenderStep(c, r.next, i);
            Numbered(Step(last.next, r.out + last.out))
  {
    hide SenderStep, SenderOk, NotData;
    NumberOfStep(c, r.next, i);
    NotDataAppend(r.out, SenderStep(c, r.next, i).out);
    IncrementWraps(r.next.controlSeqNum, |NotData(r.out)|);
  }

  /** Over any run the control PDUs are numbered from 0 without a gap, modulo 2^32. */
  lemma {:induction false} ControlsAreNumbered(c: Config, inputs: seq<Input>)
    requires c.Ok()
    ensures Numbered(RunSender(c, InitialSender(c), inputs))
    decreases inputs
  {
    hide SenderStep, SenderOk;
    if inputs != [] {
      hide Numbered;
      var n := |inputs| - 1;
      ControlsAreNumbered(c, inputs[..n]);
      HowRunsEnd(c, inputs[..n]);
      NumberedStep(c, RunSender(c, InitialSender(c), inputs[..n]), inputs[n]);
    }
  }

  /** The types on the wire: the seventh byte of what the client sends. */
  lemma ClientTypes(c: Config, n: u32, k: nat, chunk: Octets)
    ensures Request(c, k)[6] == 7 && DataPdu(k, chunk)[6] == 3
    ensures Eof(n, k)[6] == 32 && EncodePdu(Little, n, FLAG_FINAL_ACK, [])[6] == 34
  {
    hide FilenamePayload;
    Layout(Little, ToU32(k), FLAG_FILENAME, FilenamePayload(c.windowSize, c.bufferSize, c.toFile));
    Layout(Little, ToU32(k), FLAG_DATA, chunk);
    Layout(Little, ToU32(n + k), FLAG_EOF, []);
  }
}

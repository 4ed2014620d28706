/** What the server's child says and hears, over whole runs: request, data, end of file. */
module ServerConversation {
  import opened Bytes
  import opened Checksum
  import opened Pdu
  import opened ReceiverSpec
  import opened Receiver
  import opened SenderSpec
  import opened ServerSpec
  import opened ServerTrace

  predicate Carries(i: ServerInput, flag: byte) {
    i.Packet? && Usable(i.p) && Flag(i.p) == flag
  }

  /** Until a usable request comes, nothing happens. */
  lemma {:induction false} DeafUntilAsked(inputs: seq<ServerInput>)
    requires forall i :: i in inputs ==> !Carries(i, FLAG_FILENAME)
    ensures RunServer(INITIAL_SERVER, inputs) == ServerResult(INITIAL_SERVER, [])
    decreases inputs
  {
    hide Usable, EncodePdu, ParseFilename;
    if inputs != [] {
      var n := |inputs| - 1;
      assert inputs == inputs[..n] + [inputs[n]] && !Carries(inputs[n], FLAG_FILENAME);
      DeafUntilAsked(inputs[..n]);
    }
  }

  /** The answer to a request: refused without a byte if it is too short, with status 1 if the
      output file cannot be opened, accepted with status 0 otherwise. */
  lemma AnswerToRequest(i: ServerInput)
    requires Carries(i, FLAG_FILENAME)
    ensures var r := RunServer(INITIAL_SERVER, [i]);
            && r.next.recv == EMPTY
            && (if |i.p| < 7 + 8 + 1 then r.out == [] && r.next.phase == FINISHED
                else && |r.out| == 1 && |r.out[0]| == 8 && Flag(r.out[0]) == FLAG_FILENAME_RESPONSE
                     && SequenceNum(r.out[0]) == 0 && r.out[0][7] == (if i.opens then 0 else 1)
                     && r.next.phase == (if i.opens then RECEIVING else FINISHED))
  {
    hide ChecksumOk, EncodePdu;
    assert [i][..0] == [] && [i][|[i]| - 1] == i;
    assert RunServer(INITIAL_SERVER, []) == ServerResult(INITIAL_SERVER, []);
    PduRoundTrip(Little, 0, FLAG_FILENAME_RESPONSE, [0]);
    PduRoundTrip(Little, 0, FLAG_FILENAME_RESPONSE, [1]);
    var r := RunServer(INITIAL_SERVER, [i]);
    assert r.out != [] ==> r.out[0][7] == Payload(r.out[0])[0];
  }

  /** A child that has returned says nothing more. */
  lemma {:induction false} FinishedForever(s: Server, inputs: seq<ServerInput>)
    requires s.phase == FINISHED
    ensures RunServer(s, inputs) == ServerResult(s, [])
    decreases inputs
  {
    if inputs != [] {
      FinishedForever(s, inputs[..|inputs| - 1]);
    }
  }

  // ---------------------------------------------------------------- the receive loop

  /** The data packets among the inputs. */
  function DataOf(inputs: seq<ServerInput>): seq<ReceiverSpec.Packet>
    decreases inputs
  {
    if inputs == [] then []
    else
      var i := inputs[|inputs| - 1];
      DataOf(inputs[..|inputs| - 1]) + if IsData(i) then [ReceiverSpec.Packet(SequenceNum(i.p), Payload(i.p))] else []
  }

  /** The child has taken these data packets and done nothing else. */
  ghost predicate Received(s: Server, r: ServerResult, packets: seq<ReceiverSpec.Packet>) {
    var replies := Replies(s.recv, packets);
    && r.next == s.(recv := Run(s.recv, packets), ackSeqNum := AckAfter(s.ackSeqNum, |replies|))
    && r.out == Stamp(s.ackSeqNum, replies)
  }

  lemma ReceiveOnce(s: Server, r: ServerResult, packets: seq<ReceiverSpec.Packet>, i: ServerInput)
    requires s.phase == RECEIVING && Received(s, r, packets) && i.Packet? && !Carries(i, FLAG_EOF)
    ensures var last := ServerStep(r.next, i);
            Received(s, ServerResult(last.next, r.out + last.out),
                     packets + if IsData(i) then [ReceiverSpec.Packet(SequenceNum(i.p), Payload(i.p))] else [])
  {
    hide ChecksumOk, EncodePdu, ControlBytes, Receive, Reply, Run, Replies, Stamp, AckAfter;
    assert ServerStep(r.next, i) == ReceiveStep(r.next, i);
    if IsData(i) {
      var p := ReceiverSpec.Packet(SequenceNum(i.p), Payload(i.p));
      var reply := Reply(Run(s.recv, packets), p.seqNum, p.payload);
      RunNext(s.recv, packets, p);
      StampAppend(s.ackSeqNum, Replies(s.recv, packets), reply);
    } else {
      assert packets + [] == packets && r.out + [] == r.out;
    }
  }

  /** As long as packets come and none of them says EOF, the child stays in the receive loop: it
      takes every data packet, answers as the receiver does and in no other way, and whatever
      else arrives, corrupted or out of place, changes nothing. */
  lemma {:induction false} ReceivesUntilEof(s: Server, inputs: seq<ServerInput>)
    requires s.phase == RECEIVING && forall i :: i in inputs ==> i.Packet? && !Carries(i, FLAG_EOF)
    ensures Received(s, RunServer(s, inputs), DataOf(inputs))
    decreases inputs
  {
    if inputs == [] {
      NothingReceived(s);
      assert Replies(s.recv, []) == [];
    } else {
      hide ServerStep, Carries, Received, IsData;
      var n := |inputs| - 1;
      assert inputs == inputs[..n] + [inputs[n]];
      ReceivesUntilEof(s, inputs[..n]);
      ReceiveOnce(s, RunServer(s, inputs[..n]), DataOf(inputs[..n]), inputs[n]);
    }
  }

  /** Ten silent seconds end it without a word. */
  lemma SilenceEndsIt(s: Server, inputs: seq<ServerInput>)
    requires s.phase == RECEIVING
    ensures RunServer(s, [ServerInput.Timeout] + inputs) == ServerResult(s.(phase := FINISHED), [])
  {
    hide EncodePdu, Usable;
    var silence := [ServerInput.Timeout];
    assert silence[..0] == [] && RunServer(s, []) == ServerResult(s, []);
    assert RunServer(s, silence) == ServerResult(s.(phase := FINISHED), []);
    FinishedForever(s.(phase := FINISHED), inputs);
    RunServerAppend(s, silence, inputs);
  }

  // ---------------------------------------------------------------- the end of file loop

  /** The `j`-th EOF_ACK after number `first`. */
  function EofAck(first: u32, j: nat): Octets {
    EncodePdu(Little, ToU32(first + j), FLAG_EOF_ACK, [])
  }

  /** The child has sent exactly `n` EOF_ACKs, with consecutive numbers, and stands in `phase`. */
  ghost predicate Acknowledging(s: Server, r: ServerResult, n: nat, phase: Phase) {
    && r.next == s.(phase := phase, controlSeqNum := ToU32(s.controlSeqNum + n))
    && |r.out| == n && forall j: nat :: j < n ==> r.out[j] == EofAck(s.controlSeqNum, j)
  }

  lemma AcknowledgeOnce(s: Server, r: ServerResult, n: nat, i: ServerInput)
    requires n < 10 && Acknowledging(s, r, n, EOF_LOOP(n))
    ensures var last := ServerStep(r.next, i);
            var r' := ServerResult(last.next, r.out + last.out);
            if Carries(i, FLAG_FINAL_ACK) then Acknowledging(s, r', n, FINISHED)
            else Acknowledging(s, r', n + 1, if n + 1 == 10 then FINISHED else EOF_LOOP(n + 1))
  {
    hide EncodePdu, Usable;
    assert ServerStep(r.next, i) == EofLoopStep(r.next, i);
    IncrementWraps(r.next.controlSeqNum, s.controlSeqNum + n);
    assert r.out + [] == r.out;
  }

  /** In the end of file loop every poll, whatever it brings, is answered with one more EOF_ACK,
      until the tenth. */
  lemma {:induction false} TenEofAcks(s: Server, inputs: seq<ServerInput>)
    requires s.phase == EOF_LOOP(0) && |inputs| <= 10 && forall i :: i in inputs ==> !Carries(i, FLAG_FINAL_ACK)
    ensures Acknowledging(s, RunServer(s, inputs), |inputs|, if |inputs| == 10 then FINISHED else EOF_LOOP(|inputs|))
    decreases inputs
  {
    if inputs == [] {
      assert ToU32(s.controlSeqNum) == s.controlSeqNum;
    } else {
      hide ServerStep, Carries, Acknowledging;
      var n := |inputs| - 1;
      assert inputs == inputs[..n] + [inputs[n]];
      TenEofAcks(s, inputs[..n]);
      AcknowledgeOnce(s, RunServer(s, inputs[..n]), n, inputs[n]);
    }
  }

  /** The turns before the first usable FINAL_ACK, but no more than ten. */
  function TurnsTaken(inputs: seq<ServerInput>, from: nat): (n: nat)
    requires from <= |inputs| && from <= 10
    ensures from <= n <= |inputs| && n <= 10
    ensures forall j :: from <= j < n ==> !Carries(inputs[j], FLAG_FINAL_ACK)
    ensures n == 10 || n == |inputs| || Carries(inputs[n], FLAG_FINAL_ACK)
    decreases 10 - from
  {
    if from == 10 || from == |inputs| || Carries(inputs[from], FLAG_FINAL_ACK) then from
    else TurnsTaken(inputs, from + 1)
  }

  /** Over any run of the end of file loop: one EOF_ACK for each turn before the first usable
      FINAL_ACK, ten at most, and nothing else; the child has returned exactly if one of those
      turns brought a FINAL_ACK or ten have passed. */
  lemma EofLoopConversation(s: Server, inputs: seq<ServerInput>)
    requires s.phase == EOF_LOOP(0)
    ensures var n := TurnsTaken(inputs, 0);
            Acknowledging(s, RunServer(s, inputs), n, if n == 10 || n < |inputs| then FINISHED else EOF_LOOP(n))
    ensures RunServer(s, inputs).next.phase == FINISHED
            <==> |inputs| >= 10 || exists i :: i in inputs && Carries(i, FLAG_FINAL_ACK)
  {
    hide ServerStep, Carries, RunServer;
    var n := TurnsTaken(inputs, 0);
    var front := inputs[..n];
    TenEofAcks(s, front);
    if n == |inputs| {
      assert front == inputs;
    } else {
      var i, rest := inputs[n], inputs[n + 1..];
      assert inputs == front + [i] + rest;
      if n < 10 {
        AcknowledgeOnce(s, RunServer(s, front), n, i);
        RunServerNext(s, front, i);
        Returned(s, front + [i], rest);
      } else {
        Returned(s, front, [i] + rest);
        assert front + ([i] + rest) == inputs;
      }
    }
  }

  lemma Returned(s: Server, inputs: seq<ServerInput>, more: seq<ServerInput>)
    requires RunServer(s, inputs).next.phase == FINISHED
    ensures RunServer(s, inputs + more) == RunServer(s, inputs)
  {
    hide RunServer;
    var r := RunServer(s, inputs);
    FinishedForever(r.next, more);
    RunServerAppend(s, inputs, more);
    assert r.out + [] == r.out;
  }

  lemma FirstEofAck(s: Server, eof: ServerInput)
    requires s.phase == RECEIVING && Carries(eof, FLAG_EOF)
    ensures RunServer(s, [eof]) ==
            ServerResult(s.(phase := EOF_LOOP(0), controlSeqNum := Increment(s.controlSeqNum)), [EofAck(s.controlSeqNum, 0)])
  {
    hide EncodePdu, ChecksumOk;
    assert [eof][..0] == [] && RunServer(s, []) == ServerResult(s, []);
    assert ServerStep(s, eof) == ReceiveStep(s, eof);
    assert ToU32(s.controlSeqNum + 0) == s.controlSeqNum;
  }

  /** EOF is answered at once, and then at every turn of the loop. */
  lemma EofIsAnswered(s: Server, eof: ServerInput, inputs: seq<ServerInput>)
    requires s.phase == RECEIVING && Carries(eof, FLAG_EOF)
    ensures var r, n := RunServer(s, [eof] + inputs), TurnsTaken(inputs, 0);
            && |r.out| == 1 + n && (forall j: nat :: j < 1 + n ==> r.out[j] == EofAck(s.controlSeqNum, j))
            && r.next.recv == s.recv
            && r.next.phase == if n == 10 || n < |inputs| then FINISHED else EOF_LOOP(n)
  {
    hide EofAck, Carries, RunServer;
    FirstEofAck(s, eof);
    var first := RunServer(s, [eof]).next;
    EofLoopConversation(first, inputs);
    RunServerAppend(s, [eof], inputs);
    forall j: nat ensures EofAck(first.controlSeqNum, j) == EofAck(s.controlSeqNum, j + 1) {
      SameNumber(s.controlSeqNum, j);
    }
    var r := RunServer(s, [eof] + inputs);
    forall j: nat | j < |r.out| ensures r.out[j] == EofAck(s.controlSeqNum, j) {
      assert j > 0 ==> r.out[j] == RunServer(first, inputs).out[j - 1] == EofAck(first.controlSeqNum, j - 1);
    }
  }

  lemma SameNumber(first: u32, j: nat)
    ensures EofAck(Increment(first), j) == EofAck(first, j + 1)
  {
    hide EncodePdu;
    assert ToU32(Increment(first) + j) == ToU32(first + (j + 1));
  }

  // ---------------------------------------------------------------- control numbers

  /** The `n`-th RR or SREJ carries the starting number plus `n`, modulo 2^32. */
  lemma {:induction false} AcksAreNumbered(ackSeqNum: u32, n: nat)
    ensures AckAfter(ackSeqNum, n) == (ackSeqNum + n) % 0x1_0000_0000
  {
    if n > 0 {
      AcksAreNumbered(ackSeqNum, n - 1);
      IncrementWraps(AckAfter(ackSeqNum, n - 1), ackSeqNum + n - 1);
    }
  }

  /** The types on the wire: the seventh byte of what the child sends. */
  lemma ServerTypes(n: u32, k: nat, status: byte)
    ensures ControlBytes(n, RR(k))[6] == 5 && ControlBytes(n, SREJ(k))[6] == 6
    ensures EofAck(n, k)[6] == 33 && EncodePdu(Little, n, FLAG_FILENAME_RESPONSE, [status])[6] == 8
  {
    ControlLayout(n, FLAG_RR, ToU32(k));
    ControlLayout(n, FLAG_SREJ, ToU32(k));
    Layout(Little, ToU32(n + k), FLAG_EOF_ACK, []);
  }
}

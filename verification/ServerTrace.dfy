/** The server over whole runs: it receives and answers as ReceiverSpec.Run and Replies say. */
module ServerTrace {
  import opened Bytes
  import opened Checksum
  import opened Pdu
  import opened ReceiverSpec
  import opened Receiver
  import opened SenderSpec
  import opened ServerSpec
  import opened Transfer
  import opened Linking

  /** The data packets among the inputs that reach the buffer: those of the receive loop. */
  function Accepted(s: Server, inputs: seq<ServerInput>): seq<ReceiverSpec.Packet>
    decreases inputs
  {
    if inputs == [] then []
    else
      var front, i := inputs[..|inputs| - 1], inputs[|inputs| - 1];
      if RunServer(s, front).next.phase == RECEIVING && IsData(i)
      then Accepted(s, front) + [ReceiverSpec.Packet(SequenceNum(i.p), Payload(i.p))]
      else Accepted(s, front)
  }

  /** The RRs and SREJs among the PDUs sent. */
  function Controls(out: seq<Octets>): seq<Octets> {
    if out == [] then []
    else
      var p := out[|out| - 1];
      Controls(out[..|out| - 1])
      + if |p| >= HEADER_LEN && (Flag(p) == FLAG_RR || Flag(p) == FLAG_SREJ) then [p] else []
  }

  function AckAfter(ackSeqNum: u32, n: nat): u32 {
    if n == 0 then ackSeqNum else Increment(AckAfter(ackSeqNum, n - 1))
  }

  /** Control messages as PDUs with consecutive control numbers. */
  function Stamp(ackSeqNum: u32, c: seq<Control>): seq<Octets> {
    if c == [] then []
    else
      var n := |c| - 1;
      Stamp(ackSeqNum, c[..n]) + [ControlBytes(AckAfter(ackSeqNum, n), c[n])]
  }

  lemma {:induction false} RunNext(v: RecvView, packets: seq<ReceiverSpec.Packet>, p: ReceiverSpec.Packet)
    ensures var before := Run(v, packets);
            && Run(v, packets + [p]) == Receive(before, p.seqNum, p.payload)
            && Replies(v, packets + [p]) == Replies(v, packets) + Reply(before, p.seqNum, p.payload)
    decreases packets
  {
    hide Receive, Reply;
    if packets == [] {
      assert [p][1..] == [];
      assert Run(Receive(v, p.seqNum, p.payload), []) == Receive(v, p.seqNum, p.payload);
      assert [] + [p] == [p];
    } else {
      var v1, r := Receive(v, packets[0].seqNum, packets[0].payload), Reply(v, packets[0].seqNum, packets[0].payload);
      RunNext(v1, packets[1..], p);
      assert (packets + [p])[0] == packets[0] && (packets + [p])[1..] == packets[1..] + [p];
      var last := Reply(Run(v, packets), p.seqNum, p.payload);
      assert r + (Replies(v1, packets[1..]) + last) == (r + Replies(v1, packets[1..])) + last;
    }
  }

  lemma ControlsAppend(a: seq<Octets>, b: seq<Octets>)
    requires |b| <= 1
    ensures Controls(a + b) == Controls(a) + Controls(b)
  {
    if b == [] {
      assert a + b == a;
    } else {
      assert (a + b)[..|a|] == a && b[..0] == [];
    }
  }

  lemma StampAppend(ackSeqNum: u32, a: seq<Control>, b: seq<Control>)
    requires |b| <= 1
    ensures Stamp(ackSeqNum, a + b) == Stamp(ackSeqNum, a) + ReplyBytes(AckAfter(ackSeqNum, |a|), b)
    ensures AckAfter(ackSeqNum, |a + b|) == if b == [] then AckAfter(ackSeqNum, |a|) else Increment(AckAfter(ackSeqNum, |a|))
  {
    hide ControlBytes;
    if b == [] {
      assert a + b == a;
    } else {
      assert (a + b)[..|a|] == a;
    }
  }

  /** What one step of the server adds to the controls it has sent. */
  lemma StepControls(s: Server, i: ServerInput)
    ensures var r := ServerStep(s, i);
            if s.phase == RECEIVING && IsData(i) then
              var c := Reply(s.recv, SequenceNum(i.p), Payload(i.p));
              && r.next.ackSeqNum == (if c == [] then s.ackSeqNum else Increment(s.ackSeqNum))
              && r.out == Controls(r.out) == ReplyBytes(s.ackSeqNum, c)
            else Controls(r.out) == [] && r.next.ackSeqNum == s.ackSeqNum
  {
    hide EncodePdu, ChecksumOk, ParseFilename, Receive;
    var r := ServerStep(s, i);
    PduRoundTrip(Little, s.controlSeqNum, FLAG_FILENAME_RESPONSE, [0]);
    PduRoundTrip(Little, s.controlSeqNum, FLAG_FILENAME_RESPONSE, [1]);
    PduRoundTrip(Little, s.controlSeqNum, FLAG_EOF_ACK, []);
    if s.phase == RECEIVING && IsData(i) {
      var c := Reply(s.recv, SequenceNum(i.p), Payload(i.p));
      if c != [] {
        PduRoundTrip(Little, s.ackSeqNum, if c[0].RR? then FLAG_RR else FLAG_SREJ, Be32(ToU32(c[0].n)));
      }
    }
    if r.out != [] {
      assert r.out[..0] == [];
    }
  }

  /** Over any run of the server, whatever arrives: what it has received is Run of the data
      packets that reached the buffer, and the RRs and SREJs it has sent are Replies to them,
      one after the other. RunReceivesExactly, ControlTrace and AlwaysAnnounced so speak of it. */
  lemma {:induction false} ServerIsReceiver(s: Server, inputs: seq<ServerInput>)
    ensures var r, packets := RunServer(s, inputs), Accepted(s, inputs);
            var replies := Replies(s.recv, packets);
            && r.next.recv == Run(s.recv, packets)
            && Controls(r.out) == Stamp(s.ackSeqNum, replies)
            && r.next.ackSeqNum == AckAfter(s.ackSeqNum, |replies|)
    decreases inputs
  {
    hide ServerStep, Receive, Reply, ControlBytes, Usable, Run, Replies, Controls, Stamp;
    if inputs == [] {
      NothingReceived(s);
    } else {
      var front, i := inputs[..|inputs| - 1], inputs[|inputs| - 1];
      ServerIsReceiver(s, front);
      var before := RunServer(s, front);
      StepControls(before.next, i);
      HostReceives(before.next, i);
      ControlsAppend(before.out, ServerStep(before.next, i).out);
      if before.next.phase == RECEIVING && IsData(i) {
        var p := ReceiverSpec.Packet(SequenceNum(i.p), Payload(i.p));
        RunNext(s.recv, Accepted(s, front), p);
        StampAppend(s.ackSeqNum, Replies(s.recv, Accepted(s, front)), Reply(before.next.recv, p.seqNum, p.payload));
      }
    }
  }

  lemma NothingReceived(s: Server)
    ensures Run(s.recv, []) == s.recv && Replies(s.recv, []) == [] && Controls([]) == [] && Stamp(s.ackSeqNum, []) == []
  {
  }

  /** In every run of the whole protocol: the server has exactly the packets that reached its
      buffer; its control numbers, over the whole run, never decrease and reject no gap twice;
      and what it waits for has been announced, by an SREJ if there is a gap, else by an RR. */
  lemma RunControlTrace(c: Config, events: seq<Event>)
    requires c.Ok() && Play(c, events).Some?
    ensures var s, packets := Play(c, events).value, Accepted(INITIAL_SERVER, HostInputs(events));
            var replies := Replies(EMPTY, packets);
            && s.srv.recv == Run(EMPTY, packets)
            && Controls(RunServer(INITIAL_SERVER, HostInputs(events)).out) == Stamp(0, replies)
            && NonDecreasing(replies, 0, s.srv.recv.expected) && RejectsOnce(replies)
            && (s.srv.recv.HasGap() ==> SREJ(s.srv.recv.expected) in replies)
            && (!s.srv.recv.HasGap() && s.srv.recv.expected > 0 ==> RR(s.srv.recv.expected) in replies)
  {
    hide Play, RunServer, Run, Replies, Accepted, Controls, Stamp;
    EndsRunTheirPrograms(c, events);
    ServerIsReceiver(INITIAL_SERVER, HostInputs(events));
    assert EMPTY.Ok();
    ControlTrace(EMPTY, Accepted(INITIAL_SERVER, HostInputs(events)));
    AlwaysAnnounced(Accepted(INITIAL_SERVER, HostInputs(events)));
  }
}

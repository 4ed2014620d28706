/** What holds in every reachable state of the protocol. */
module Safety {
  import opened Bytes
  import opened Checksum
  import opened Pdu
  import opened ReceiverSpec
  import opened SenderSpec
  import opened SenderProperties
  import opened ServerSpec
  import opened Transfer

  /** The bytes the server has written. */
  ghost function FileWritten(srv: Server): Octets
    requires srv.recv.Ok()
  {
    Output(srv.recv.got, srv.recv.expected)
  }

  lemma {:induction false} OutputIsFile(got: map<nat, Octets>, chunks: seq<Octets>, n: nat)
    requires n <= |chunks|
    requires forall k: nat :: k < n ==> k in got
    requires forall k :: k in got && k < |chunks| ==> got[k] == chunks[k]
    ensures Output(got, n) == FileUpTo(chunks, n)
  {
    if n > 0 {
      OutputIsFile(got, chunks, n - 1);
    }
  }

  /** In every reachable state the server has written exactly the chunks below the number it
      expects, each once and in order; that number lies between what the client knows to be
      acknowledged and what it has sent; no RR or SREJ on the wire is ahead of it; and before
      any data is sent the server has agreed to the client's window size. */
  lemma PrefixSafety(c: Config, events: seq<Event>)
    requires c.Ok() && Play(c, events).Some?
    ensures var s := Play(c, events).value;
            var w, v := s.snd.win, s.srv.recv;
            && v.Ok() && v.expected <= |c.chunks|
            && FileWritten(s.srv) == FileUpTo(c.chunks, v.expected)
            && w.lower <= v.expected <= w.current <= w.lower + c.windowSize
            && (forall p :: p in s.toClient && Usable(p) && (Flag(p) == FLAG_RR || Flag(p) == FLAG_SREJ) ==>
                  |p| == HEADER_LEN + 4 && ControlNumber(p) <= v.expected)
            && (s.srv.phase == RECEIVING || w.current > 0 ==> s.srv.windowSize == c.windowSize)
  {
    hide ChecksumOk, EncodePdu, FilenamePayload;
    var s := Play(c, events).value;
    PlayKeepsInv(c, events);
    ExpectedWasSent(c, s.snd, s.srv);
    OutputIsFile(s.srv.recv.got, c.chunks, s.srv.recv.expected);
    forall p | p in s.toClient && Usable(p) && (Flag(p) == FLAG_RR || Flag(p) == FLAG_SREJ)
      ensures |p| == HEADER_LEN + 4 && ControlNumber(p) <= s.srv.recv.expected
    {
      assert FromServer(c, s.snd, s.srv, p);
    }
  }

  /** Every data packet that may still be delivered in a reachable state meets the condition
      that buffer.c relies on without checking it. */
  lemma NoRingCollision(c: Config, events: seq<Event>, p: Octets)
    requires c.Ok() && Play(c, events).Some?
    requires p in Play(c, events).value.toServer && Usable(p) && Flag(p) == FLAG_DATA
    ensures var s := Play(c, events).value;
            SequenceNum(p) < s.srv.recv.expected + c.windowSize && SequenceNum(p) < UINT32_MAX - 1
  {
    PlayKeepsInv(c, events);
    DeliverableIsInWindow(c, Play(c, events).value, p);
  }

  ghost predicate WholeHeaders(s: Sys) {
    forall p :: p in s.toServer + s.toClient ==> |p| >= HEADER_LEN
  }

  /** No packet shorter than a header is ever on the wire, so no flag is read from behind one. */
  lemma {:induction false} NoShortPackets(c: Config, events: seq<Event>)
    requires c.Ok() && Play(c, events).Some?
    ensures WholeHeaders(Play(c, events).value)
    decreases events
  {
    hide Inv, SenderStep, ServerStep, EncodePdu;
    if events != [] {
      var front, e := events[..|events| - 1], events[|events| - 1];
      var s := Play(c, front).value;
      NoShortPackets(c, front);
      PlayKeepsInv(c, front);
      match e
      case Client(i, fate) => ClientStepKeeps(c, s, i);
      case Host(i, fate) => ServerStepKeeps(c, s, i);
    }
  }

  predicate EndOfFileSeen(s: Sys) {
    || s.snd.mode == SEND_EOF || s.snd.mode == WAIT_EOF_ACK
    || s.srv.phase.EOF_LOOP?
    || (exists p | p in s.toServer :: Usable(p) && (Flag(p) == FLAG_EOF || Flag(p) == FLAG_FINAL_ACK))
    || (exists p | p in s.toClient :: Usable(p) && Flag(p) == FLAG_EOF_ACK)
  }

  lemma EndOfFileMeansAcknowledged(c: Config, s: Sys)
    requires c.Ok() && Inv(c, s) && EndOfFileSeen(s)
    ensures AllAcknowledged(c, s.snd)
  {
    hide ChecksumOk, EncodePdu, FilenamePayload;
    if s.snd.mode == SEND_EOF || s.snd.mode == WAIT_EOF_ACK || s.srv.phase.EOF_LOOP? {
    } else if p :| p in s.toServer && Usable(p) && (Flag(p) == FLAG_EOF || Flag(p) == FLAG_FINAL_ACK) {
      assert FromClient(c, s.snd, p);
    } else {
      var p :| p in s.toClient && Usable(p) && Flag(p) == FLAG_EOF_ACK;
      assert FromServer(c, s.snd, s.srv, p);
    }
  }

  /** Once either end is in the end of file handshake, or any of its packets is on the wire,
      the output file equals the whole input file. */
  lemma EndOfFileMeansComplete(c: Config, events: seq<Event>)
    requires c.Ok() && Play(c, events).Some? && EndOfFileSeen(Play(c, events).value)
    ensures var s := Play(c, events).value;
            s.srv.recv.Ok() && FileWritten(s.srv) == FileUpTo(c.chunks, |c.chunks|)
  {
    hide Inv, EndOfFileSeen, FileWritten, Play;
    PlayKeepsInv(c, events);
    EndOfFileMeansAcknowledged(c, Play(c, events).value);
    PrefixSafety(c, events);
  }

  /** In every reachable state, silence from then on ends the client exactly if it is not stuck. */
  lemma SilenceAfterAnyRun(c: Config, events: seq<Event>)
    requires c.Ok() && Play(c, events).Some?
    ensures var snd := Play(c, events).value.snd;
            (exists k: nat :: SilentRun(c, snd, k).mode == DONE) <==> !Stuck(c, snd)
  {
    PlayKeepsInv(c, events);
    SilentTermination(c, Play(c, events).value.snd);
  }

  lemma {:induction false} FilePrefix(chunks: seq<Octets>, m: nat, n: nat)
    requires m <= n <= |chunks|
    ensures FileUpTo(chunks, m) <= FileUpTo(chunks, n)
    decreases n
  {
    if m < n {
      FilePrefix(chunks, m, n - 1);
    }
  }

  lemma {:induction false} ExpectedNeverDecreases(c: Config, events: seq<Event>, more: seq<Event>)
    requires c.Ok() && Play(c, events + more).Some?
    ensures Play(c, events).Some?
    ensures Play(c, events).value.srv.recv.expected <= Play(c, events + more).value.srv.recv.expected
    decreases more
  {
    hide Inv, NotBefore, Next, Enabled;
    if more == [] {
      assert events + more == events;
    } else {
      var front, e := more[..|more| - 1], more[|more| - 1];
      assert (events + more)[..|events + more| - 1] == events + front;
      ExpectedNeverDecreases(c, events, front);
      PlayKeepsInv(c, events + front);
      NextKeepsInv(c, Play(c, events + front).value, e);
      LaterExpected(c, Play(c, events + front).value, Next(c, Play(c, events + front).value, e));
    }
  }

  lemma LaterExpected(c: Config, s: Sys, s': Sys)
    requires NotBefore(c, s.snd, s.srv, s'.snd, s'.srv)
    ensures s.srv.recv.expected <= s'.srv.recv.expected
  {
  }

  /** Whatever happens next, the server only appends: what is in the file stays. */
  lemma FileOnlyGrows(c: Config, events: seq<Event>, more: seq<Event>)
    requires c.Ok() && Play(c, events + more).Some?
    ensures Play(c, events).Some?
    ensures var s, s' := Play(c, events).value, Play(c, events + more).value;
            s.srv.recv.Ok() && s'.srv.recv.Ok() && FileWritten(s.srv) <= FileWritten(s'.srv)
  {
    hide Play, FileWritten;
    ExpectedNeverDecreases(c, events, more);
    PrefixSafety(c, events);
    PrefixSafety(c, events + more);
    FilePrefix(c.chunks, Play(c, events).value.srv.recv.expected, Play(c, events + more).value.srv.recv.expected);
  }
}

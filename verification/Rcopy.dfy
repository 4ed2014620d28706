/** The client program, rcopy.c: RcopyInfo and its state functions, over the window of window.c. */
module RcopyClient {
  import opened Bytes
  import opened Checksum
  import opened Pdu
  import opened SenderWindow
  import opened SenderSpec

  class Rcopy {
    const c: Config
    const window: Window
    var state: Mode
    var timeoutCount: nat
    var filenameTries: nat
    var eofTries: nat
    var controlSeqNum: u32
    var eofReached: bool
    var filePos: nat           // chunks that `read` has returned
    var wire: seq<Octets>      // PDUs handed to sendtoErr

    ghost predicate Valid()
      reads this, window, window.packets
    {
      && c.Ok()
      && window.Valid() && window.windowSize == c.windowSize
      && window.current == filePos <= |c.chunks|
    }

    ghost function ViewIn(st: Mode): Sender
      requires window.Valid()
      reads this, window, window.packets
    {
      Sender(st, window.View(), timeoutCount, filenameTries, eofTries, controlSeqNum, eofReached, filePos)
    }

    ghost function View(): Sender
      requires window.Valid()
      reads this, window, window.packets
    {
      ViewIn(state)
    }

    /** A state function did what `step` says and returned `st`. */
    ghost predicate Did(st: Mode, wire0: seq<Octets>, step: Step)
      reads this, window, window.packets
    {
      Valid() && ViewIn(st) == step.next && wire == wire0 + step.out
    }

    /** Everything so far is what RunSender makes of the first `n` inputs of the script. */
    ghost predicate Follows(st: Mode, script: seq<Input>, n: nat)
      requires n <= |script|
      reads this, window, window.packets
    {
      Valid() && Step(ViewIn(st), wire) == RunSender(c, InitialSender(c), script[..n])
    }

    /** `initRcopyInfo`. */
    constructor (config: Config)
      requires config.Ok()
      ensures Valid() && fresh(window) && fresh(window.packets)
      ensures c == config && View() == InitialSender(config) && wire == []
    {
      c := config;
      window := new Window(config.windowSize);
      state := SEND_FILENAME;
      timeoutCount, filenameTries, eofTries := 0, 0, 0;
      controlSeqNum, eofReached, filePos := 0, false, 0;
      wire := [];
    }

    method SendtoErr(pdu: Octets)
      modifies this`wire
      ensures wire == old(wire) + [pdu]
    {
      wire := wire + [pdu];
    }

    method SendControlPacket(flag: byte, payload: Octets)
      requires |payload| <= MAX_DATA_SIZE
      modifies this`wire, this`controlSeqNum
      ensures controlSeqNum == Increment(old(controlSeqNum))
      ensures wire == old(wire) + [EncodePdu(Little, old(controlSeqNum), flag, payload)]
    {
      var pdu := new byte[MAX_PDU_SIZE];
      var pduLen := CreatePdu(Little, pdu, controlSeqNum, flag, payload);
      controlSeqNum := Increment(controlSeqNum);
      SendtoErr(pdu[..pduLen]);
    }

    method SendFilenameState() returns (st: Mode)
      requires Valid()
      modifies this
      ensures Did(st, old(wire), SendFilenameStep(c, old(View())))
    {
      hide EncodePdu;
      var payload := Be32(c.windowSize) + Be32(c.bufferSize) + c.toFile + [0];
      SendControlPacket(FLAG_FILENAME, payload);
      return WAIT_FILENAME_ACK;
    }

    method WaitFilenameAckState(i: Input) returns (st: Mode)
      requires Valid() && state == WAIT_FILENAME_ACK
      modifies this
      ensures Did(st, old(wire), WaitFilenameAckStep(old(View()), i))
    {
      if !i.Arrived? {
        filenameTries := filenameTries + 1;
        if filenameTries >= MAX_TRIES {
          return DONE;
        }
        return SEND_FILENAME;
      }
      if !Usable(i.p) {
        return WAIT_FILENAME_ACK;
      }
      if Flag(i.p) != FLAG_FILENAME_RESPONSE {
        return WAIT_FILENAME_ACK;
      }
      if |i.p| > HEADER_LEN && i.p[HEADER_LEN] != 0 {
        return DONE;
      }
      filenameTries := 0;
      return SEND_DATA;
    }

    method SendDataState(i: Input) returns (st: Mode)
      requires Valid() && state == SEND_DATA
      modifies this, window, window.packets
      ensures Did(st, old(wire), SendDataStep(c, old(View()), i))
    {
      hide EncodePdu, RingOk, Held;
      if eofReached {
        if window.lower == window.current {
          return SEND_EOF;
        }
        return PROCESS_ACKS;
      }
      var open := window.IsWindowOpen();
      if !open {
        return WINDOW_CLOSED;
      }
      if i.ReadFails? {
        return DONE;
      }
      if filePos == |c.chunks| {
        eofReached := true;
        if window.lower == window.current {
          return SEND_EOF;
        }
        return PROCESS_ACKS;
      }
      var data := c.chunks[filePos];
      assert data in c.chunks;
      filePos := filePos + 1;
      var pdu := new byte[MAX_PDU_SIZE];
      var pduLen := CreatePdu(Little, pdu, window.current, FLAG_DATA, data);
      SendtoErr(pdu[..pduLen]);
      var status := window.WindowAddPacket(pdu[..pduLen]);
      assert status == 0;
      return PROCESS_ACKS;
    }

    /** The draining loop takes the arrivals at the head of the script; the first input that is
        not an arrival ends it. `next` is the input after the last one used. */
    method ProcessAcksState(script: seq<Input>, from: nat) returns (st: Mode, next: nat)
      requires from < |script| && Follows(PROCESS_ACKS, script, from)
      modifies this, window, window.packets
      ensures from < next <= |script| && Follows(st, script, next)
    {
      hide EncodePdu, SenderStep, ProcessAcksStep;
      next := from;
      while next < |script| && script[next].Arrived?
        invariant from <= next <= |script| && Follows(PROCESS_ACKS, script, next)
      {
        DrainNext(script, next);
        next := next + 1;
      }
      if next == |script| {
        return PROCESS_ACKS, next;
      }
      ProcessAcksNext(script[..next + 1]);
      assert script[..next + 1][..next] == script[..next];
      st := LeaveAcks(script[next]);
      next := next + 1;
    }

    method DrainNext(script: seq<Input>, n: nat)
      requires n < |script| && script[n].Arrived? && Follows(PROCESS_ACKS, script, n)
      modifies this`timeoutCount, this`wire, window, window.packets
      ensures Follows(PROCESS_ACKS, script, n + 1)
    {
      hide EncodePdu, SenderStep, ProcessAcksStep;
      ProcessAcksNext(script[..n + 1]);
      assert script[..n + 1][..n] == script[..n];
      DrainOne(script[n].p);
    }

    /** While acknowledgements are processed, one more input is one more ProcessAcksStep. */
    lemma ProcessAcksNext(inputs: seq<Input>)
      requires inputs != []
      ensures var before := RunSender(c, InitialSender(c), inputs[..|inputs| - 1]);
              before.next.mode == PROCESS_ACKS ==>
                var last := ProcessAcksStep(before.next, inputs[|inputs| - 1]);
                RunSender(c, InitialSender(c), inputs) == Step(last.next, before.out + last.out)
    {
      hide ProcessAcksStep;
    }

    /** The body of the draining loop. */
    method DrainOne(pdu: Octets)
      requires Valid()
      modifies this`timeoutCount, this`wire, window, window.packets
      ensures Did(PROCESS_ACKS, old(wire), ProcessAcksStep(old(ViewIn(PROCESS_ACKS)), Arrived(pdu)))
    {
      if IsControl(pdu, FLAG_RR) {
        window.ProcessRR(ControlNumber(pdu));
        timeoutCount := 0;
      } else if IsControl(pdu, FLAG_SREJ) {
        var resend := window.ProcessSREJ(ControlNumber(pdu));
        if resend.Some? {
          SendtoErr(resend.value);
        }
        timeoutCount := 0;
      }
    }

    /** The decision after the draining loop. */
    method LeaveAcks(i: Input) returns (st: Mode)
      requires Valid() && !i.Arrived?
      ensures Did(st, wire, ProcessAcksStep(ViewIn(PROCESS_ACKS), i))
    {
      if eofReached && window.lower == window.current {
        return SEND_EOF;
      }
      var open := window.IsWindowOpen();
      st := if open then SEND_DATA else WINDOW_CLOSED;
    }

    method WindowClosedState(i: Input) returns (st: Mode)
      requires Valid()
      modifies this
      ensures Did(st, old(wire), WindowClosedStep(old(View()), i))
    {
      if i.Arrived? {
        timeoutCount := 0;
        return PROCESS_ACKS;
      }
      var lowest := window.GetLowestWindowPacket();
      if lowest.Some? {
        SendtoErr(lowest.value);
      }
      timeoutCount := timeoutCount + 1;
      if timeoutCount >= MAX_TRIES {
        return DONE;
      }
      return WINDOW_CLOSED;
    }

    method SendEofState() returns (st: Mode)
      requires Valid()
      modifies this
      ensures Did(st, old(wire), SendEofStep(old(View())))
    {
      hide EncodePdu;
      SendControlPacket(FLAG_EOF, []);
      return WAIT_EOF_ACK;
    }

    method WaitEofAckState(i: Input) returns (st: Mode)
      requires Valid()
      modifies this
      ensures Did(st, old(wire), WaitEofAckStep(old(View()), i))
    {
      hide EncodePdu;
      if !i.Arrived? || !Usable(i.p) || Flag(i.p) != FLAG_EOF_ACK {
        eofTries := eofTries + 1;
        if eofTries >= MAX_TRIES {
          return DONE;
        }
        return SEND_EOF;
      }
      SendControlPacket(FLAG_FINAL_ACK, []);
      return DONE;
    }

    /** `stateHandler`, on a script of what its polls and reads observe: it runs until DONE or
        until the script ends. */
    method StateHandler(script: seq<Input>) returns (used: nat)
      requires Valid() && View() == InitialSender(c) && wire == []
      modifies this, window, window.packets
      ensures used <= |script| && (used == |script| || state == DONE)
      ensures Follows(state, script, used)
    {
      hide EncodePdu, SenderStep;
      used := 0;
      while state != DONE && used < |script|
        invariant used <= |script| && Follows(state, script, used)
      {
        used := OneTurn(script, used);
      }
    }

    /** One turn of the loop of `stateHandler`. */
    method OneTurn(script: seq<Input>, from: nat) returns (next: nat)
      requires from < |script| && Follows(state, script, from) && state != DONE
      modifies this, window, window.packets
      ensures from < next <= |script| && Follows(state, script, next)
    {
      hide EncodePdu, SenderStep;
      if state == PROCESS_ACKS {
        state, next := ProcessAcksState(script, from);
      } else {
        RunSenderNext(c, InitialSender(c), script[..from], script[from]);
        assert script[..from] + [script[from]] == script[..from + 1];
        state := OtherState(script[from]);
        next := from + 1;
      }
    }

    /** The other branches of the switch in `stateHandler`. */
    method OtherState(i: Input) returns (st: Mode)
      requires Valid() && state != PROCESS_ACKS && state != DONE
      modifies this, window, window.packets
      ensures Did(st, old(wire), SenderStep(c, old(View()), i))
    {
      match state
      case SEND_FILENAME => st := SendFilenameState();
      case WAIT_FILENAME_ACK => st := WaitFilenameAckState(i);
      case SEND_DATA => st := SendDataState(i);
      case WINDOW_CLOSED => st := WindowClosedState(i);
      case SEND_EOF => st := SendEofState();
      case WAIT_EOF_ACK => st := WaitEofAckState(i);
    }
  }
}

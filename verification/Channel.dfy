/** The simulated network of libcpe464: what can happen to a packet between sendto and the wire. */
module Channel {
  import opened Bytes
  import opened Checksum
  import opened Pdu

  /** What one send does to the packet. */
  datatype Fate = Dropped | Passed | Flipped(at: nat)

  function Complement(p: Octets, i: nat): (q: Octets)
    requires i < |p|
    ensures |q| == |p|
  {
    p[i := 0xFF - p[i]]
  }

  lemma XorIsComplement(b: bv8)
    ensures (b ^ 0xFF) as int == 0xFF - b as int
  {
    assert b ^ 0xFF == 0xFF - b;
  }

  /** The exclusive or with 0xFF, as the source writes it. */
  function Xor(b: byte): (r: byte)
    ensures AsBits(r) == AsBits(b) ^ 0xFF && b + r == 255
  {
    XorIsComplement(AsBits(b));
    var r := (AsBits(b) ^ 0xFF) as int;
    BitsAreUnique(AsBits(r), AsBits(b) ^ 0xFF);
    r
  }

  predicate Possible(fate: Fate, p: Octets) {
    fate.Flipped? ==> fate.at < |p|
  }

  /** The packet that reaches the wire, if any. */
  function Arrives(fate: Fate, p: Octets): Option<Octets>
    requires Possible(fate, p)
  {
    match fate
    case Dropped => None
    case Passed => Some(p)
    case Flipped(i) => Some(Complement(p, i))
  }

  /** A flipped byte arrives exclusive-ored with 0xFF, all others as they were; flipping the same
      byte of what arrived gives the packet back. */
  lemma FlippedArrival(p: Octets, i: nat)
    requires i < |p|
    ensures var q := Arrives(Flipped(i), p).value;
            && |q| == |p| && AsBits(q[i]) == AsBits(p[i]) ^ 0xFF && p[i] + q[i] == 255
            && (forall k :: 0 <= k < |p| && k != i ==> q[k] == p[k])
            && Arrives(Flipped(i), q) == Some(p)
  {
    var r := Xor(p[i]);
    assert Complement(p, i)[i] == r;
    assert Complement(Complement(p, i), i) == p;
  }

  /** MsgEvents/errorDrop.cpp. */
  class ErrorDrop {
    var dropAll: bool
    var dropList: seq<u32>

    constructor ()
      ensures dropAll && dropList == []
      ensures forall msgNo: u32 :: Drops(msgNo)
    {
      dropAll, dropList := true, [];
    }

    method SetDropAll(all: bool)
      modifies this
      ensures dropAll == all && dropList == old(dropList)
      ensures forall msgNo: u32 :: Drops(msgNo) <==> all || msgNo in dropList
    {
      dropAll := all;
    }

    method SetDropSpecific(list: seq<u32>)
      modifies this
      ensures !dropAll && dropList == list
      ensures forall msgNo: u32 :: Drops(msgNo) <==> msgNo in list
    {
      dropAll := false;
      dropList := list;
    }

    predicate Drops(msgNo: u32)
      reads this
    {
      dropAll || msgNo in dropList
    }

    method Run(msgNo: u32) returns (result: int)
      ensures result == if Drops(msgNo) then 2 else 0
      ensures dropAll ==> result == 2
      ensures !dropAll ==> (result == 2 <==> exists i :: 0 <= i < |dropList| && dropList[i] == msgNo)
    {
      var toDrop := dropAll;
      var it := 0;
      while it != |dropList|
        invariant it <= |dropList| && msgNo !in dropList[..it]
        invariant toDrop == dropAll
      {
        if dropList[it] == msgNo {
          toDrop := true;
          break;
        }
        it := it + 1;
      }
      result := if toDrop then 2 else 0;
    }
  }

  /** MsgEvents/errorFlipBits.cpp: `pick` is the byte that drand48 selects. */
  method FlipBits(buf: array<byte>, pick: nat) returns (result: int)
    requires pick < buf.Length
    modifies buf
    ensures result == 1 && buf[..] == Complement(old(buf[..]), pick)
    ensures AsBits(buf[pick]) == AsBits(old(buf[pick])) ^ 0xFF
    ensures forall k :: 0 <= k < buf.Length && k != pick ==> buf[k] == old(buf[k])
  {
    buf[pick] := Xor(buf[pick]);
    result := 1;
  }

  datatype MsgEvent = InfoSeqNo | Drop(drop: ErrorDrop) | FlipBits

  predicate EventDrops(ev: MsgEvent, msgNo: u32)
    reads if ev.Drop? then {ev.drop} else {}
  {
    ev.Drop? && ev.drop.Drops(msgNo)
  }

  function DropObjects(events: seq<MsgEvent>): set<ErrorDrop> {
    set i | 0 <= i < |events| && events[i].Drop? :: events[i].drop
  }

  predicate SomeDrop(events: seq<MsgEvent>, msgNo: u32)
    reads DropObjects(events)
  {
    exists i :: 0 <= i < |events| && EventDrops(events[i], msgNo)
  }

  method RunEvent(ev: MsgEvent, buf: array<byte>, msgNo: u32, pick: nat) returns (result: int)
    requires ev.FlipBits? ==> pick < buf.Length
    modifies if ev.FlipBits? then {buf} else {}
    ensures result == if EventDrops(ev, msgNo) then 2 else if ev.FlipBits? then 1 else 0
    ensures ev.InfoSeqNo? ==> result == 0
    ensures ev.Drop? ==> (result == 2 <==> ev.drop.dropAll || msgNo in ev.drop.dropList)
    ensures ev.FlipBits? ==> result == 1
    ensures buf[..] == if ev.FlipBits? then Complement(old(buf[..]), pick) else old(buf[..])
  {
    match ev
    case InfoSeqNo => result := 0;
    case Drop(drop) => result := drop.Run(msgNo);
    case FlipBits => result := FlipBits(buf, pick);
  }

  /** PacketManager.cpp. Random choices are parameters: `hit` for `randNum <= m_ErrorRate`,
      `randCase` for the chance event that is drawn, `pick` for the byte a flip would take. */
  class PacketManager {
    var msgCount: u32
    var constantEvents: seq<MsgEvent>
    var chanceEvents: seq<MsgEvent>

    /** SettingsManager puts a flip event on the chance list only. */
    predicate Valid()
      reads this
    {
      forall i :: 0 <= i < |constantEvents| ==> !constantEvents[i].FlipBits?
    }

    constructor ()
      ensures Valid() && msgCount == 0 && constantEvents == [] && chanceEvents == []
    {
      msgCount, constantEvents, chanceEvents := 0, [], [];
    }

    method AddMsgEventStandard(ev: MsgEvent)
      modifies this
      ensures Valid() <==> old(Valid()) && !ev.FlipBits?
      ensures msgCount == old(msgCount)
      ensures constantEvents == old(constantEvents) + [ev] && chanceEvents == old(chanceEvents)
    {
      constantEvents := constantEvents + [ev];
      assert constantEvents[|constantEvents| - 1] == ev;
      assert forall i :: 0 <= i < |constantEvents| - 1 ==> constantEvents[i] == old(constantEvents[i]);
    }

    method AddMsgEventRandom(ev: MsgEvent)
      requires Valid()
      modifies this
      ensures Valid() && msgCount == old(msgCount)
      ensures constantEvents == old(constantEvents) && chanceEvents == old(chanceEvents) + [ev]
    {
      chanceEvents := chanceEvents + [ev];
    }

    /** The constant events: the first one that drops ends the loop. */
    method RunMsgEvents(buf: array<byte>, msgNo: u32, pick: nat) returns (result: int)
      requires Valid()
      ensures result == if SomeDrop(constantEvents, msgNo) then 2 else 0
      ensures result == 2 <==> exists i :: && 0 <= i < |constantEvents| && constantEvents[i].Drop?
                                           && constantEvents[i].drop.Drops(msgNo)
    {
      var hasChanged := false;
      for i := 0 to |constantEvents|
        invariant forall j :: 0 <= j < i ==> !EventDrops(constantEvents[j], msgNo)
        invariant !hasChanged
      {
        var r := RunEvent(constantEvents[i], buf, msgNo, pick);
        if r == 1 {
          hasChanged := true;
        } else if r == 2 {
          return 2;
        }
      }
      result := if hasChanged then 1 else 0;
    }

    /** Whether the send numbered `msgNo` is lost. */
    predicate Loses(msgNo: u32, hit: bool, randCase: nat)
      reads this, DropObjects(constantEvents), DropObjects(chanceEvents)
    {
      || SomeDrop(constantEvents, msgNo)
      || (hit && randCase < |chanceEvents| && EventDrops(chanceEvents[randCase], msgNo))
    }

    /** Whether the chance event that is drawn flips a byte. */
    predicate Flips(hit: bool, randCase: nat)
      reads this
    {
      hit && randCase < |chanceEvents| && chanceEvents[randCase].FlipBits?
    }

    method ProcessEvents(buf: array<byte>, msgNo: u32, hit: bool, randCase: nat, pick: nat) returns (result: int)
      requires Valid() && pick < buf.Length
      requires |chanceEvents| > 0 ==> randCase < |chanceEvents|
      modifies buf
      ensures result == if Loses(msgNo, hit, randCase) then 2 else if Flips(hit, randCase) then 1 else 0
      ensures buf[..] == if Flips(hit, randCase) then Complement(old(buf[..]), pick) else old(buf[..])
      ensures result == 2 <==>
                || (exists i :: && 0 <= i < |constantEvents| && constantEvents[i].Drop?
                                && constantEvents[i].drop.Drops(msgNo))
                || (hit && |chanceEvents| > 0 && chanceEvents[randCase].Drop? && chanceEvents[randCase].drop.Drops(msgNo))
      ensures buf[..] != old(buf[..]) <==> hit && |chanceEvents| > 0 && chanceEvents[randCase].FlipBits?
      ensures forall k :: 0 <= k < buf.Length && buf[k] != old(buf[k]) ==>
                k == pick && buf[k] + old(buf[k]) == 255
    {
      var hasChanged, hasDropped := false, false;
      var r := RunMsgEvents(buf, msgNo, pick);
      if r == 2 {
        hasDropped := true;
      } else if r == 1 {
        hasChanged := true;
      }
      if |chanceEvents| > 0 && hit {
        r := RunEvent(chanceEvents[randCase], buf, msgNo, pick);
        if r == 2 {
          hasDropped := true;
        } else {
          hasChanged := r != 0;
        }
      }
      result := if hasDropped then 2 else if hasChanged then 1 else 0;
    }

    /** `sendto_Err`: the events work on a copy, so the caller's buffer is never altered. */
    method SendtoErr(buf: array<byte>, len: nat, hit: bool, randCase: nat, pick: nat)
      returns (fate: Fate, wire: Option<Octets>)
      requires Valid() && 0 < len <= buf.Length && pick < len
      requires |chanceEvents| > 0 ==> randCase < |chanceEvents|
      modifies this`msgCount
      ensures msgCount == (old(msgCount) + 1) % 0x1_0000_0000
      ensures Possible(fate, buf[..len]) && wire == Arrives(fate, buf[..len])
      ensures fate == if Loses(msgCount, hit, randCase) then Dropped
                      else if Flips(hit, randCase) then Flipped(pick) else Passed
    {
      msgCount := Increment(msgCount);
      var bufTmp := new byte[len](i requires 0 <= i < len reads buf => buf[i]);
      assert bufTmp[..] == buf[..len];
      var r := ProcessEvents(bufTmp, msgCount, hit, randCase, pick);
      if r == 0 || r == 1 {
        wire := Some(bufTmp[..]);
        fate := if r == 1 then Flipped(pick) else Passed;
      } else {
        wire := None;
        fate := Dropped;
      }
    }
  }

  /** A PDU that arrives and validates is the PDU that was sent: every flip is rejected. */
  lemma OnlyGenuineArrives(seqNum: u32, flag: byte, payload: Octets, fate: Fate)
    requires Possible(fate, EncodePdu(Little, seqNum, flag, payload))
    ensures var p := EncodePdu(Little, seqNum, flag, payload);
            var q := Arrives(fate, p);
            q.Some? && ChecksumOk(Little, q.value) <==> fate.Passed? && q == Some(p)
  {
    var p := EncodePdu(Little, seqNum, flag, payload);
    EncodedIsValid(Little, seqNum, flag, payload);
    if fate.Flipped? {
      assert 0xFF - p[fate.at] != p[fate.at];
      ByteChangeDetected(Little, p, fate.at, 0xFF - p[fate.at]);
    }
  }
}

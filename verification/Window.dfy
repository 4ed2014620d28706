/** The sender's window, window.c. */
module SenderWindow {
  import opened Bytes
  import opened Pdu
  import opened Ring

  /** What the window means: it holds the PDUs numbered lower..current-1 for retransmission. */
  datatype WindowView = WindowView(size: nat, lower: nat, current: nat, held: map<nat, Octets>) {

    ghost predicate Ok() {
      && size > 0 && lower <= current <= lower + size
      && (forall k :: k in held <==> lower <= k < current)
      && (forall k :: k in held ==> 0 < |held[k]| <= MAX_PDU_SIZE)
    }

    predicate IsOpen() {
      current < lower + size
    }

    /** The next PDU enters the window under the next number. */
    function Add(pdu: Octets): WindowView {
      this.(current := current + 1, held := held[current := pdu])
    }

    /** RR `n` releases every PDU below `n`; it cannot acknowledge what was not sent. */
    function AckRR(n: nat): WindowView {
      if n <= lower then this
      else
        var n' := if n > current then current else n;
        this.(lower := n', held := From(held, n'))
    }

    function Packet(k: nat): Option<Octets> {
      if k in held then Some(held[k]) else None
    }
  }

  lemma AddKeepsOk(w: WindowView, pdu: Octets)
    requires w.Ok() && w.IsOpen() && 0 < |pdu| <= MAX_PDU_SIZE
    ensures w.Add(pdu).Ok()
  {
  }

  /** Sliding keeps the held PDUs as they are, and drops exactly those below the new edge. */
  lemma AckRRKeepsOk(w: WindowView, n: nat)
    requires w.Ok()
    ensures var w' := w.AckRR(n);
            && w'.Ok() && w'.current == w.current && w'.size == w.size
            && w.lower <= w'.lower && w'.held == From(w.held, w'.lower)
            && (w.IsOpen() ==> w'.IsOpen())
  {
    assert From(w.held, w.lower) == w.held;
  }

  datatype WindowPacket = WindowPacket(seqNum: u32, active: bool, pdu: Octets)

  /** The slot of number `k` is active and holds its PDU. */
  ghost predicate HoldsAt(slots: seq<WindowPacket>, k: nat)
    requires |slots| > 0
  {
    var p := slots[Slot(k, |slots|)];
    p.active && p.seqNum == k && 0 < |p.pdu| <= MAX_PDU_SIZE
  }

  /** If slot `i` is active, its number is in the window and belongs there. */
  ghost predicate Placed(slots: seq<WindowPacket>, i: nat, lower: nat, current: nat)
    requires i < |slots|
  {
    slots[i].active ==> lower <= slots[i].seqNum < current && Slot(slots[i].seqNum, |slots|) == i
  }

  /** The ring holds exactly the numbers lower..current-1, each active in its own slot. */
  ghost predicate RingOk(slots: seq<WindowPacket>, lower: nat, current: nat) {
    && |slots| > 0 && lower <= current <= lower + |slots|
    && (forall k: nat :: lower <= k < current ==> HoldsAt(slots, k))
    && (forall i: nat :: i < |slots| ==> Placed(slots, i, lower, current))
  }

  ghost function PduAt(slots: seq<WindowPacket>, k: nat): Octets
    requires |slots| > 0
  {
    slots[Slot(k, |slots|)].pdu
  }

  ghost function Held(slots: seq<WindowPacket>, lower: nat, current: nat): map<nat, Octets>
    requires |slots| > 0
  {
    map k: nat | lower <= k < current :: PduAt(slots, k)
  }

  lemma HeldPdus(slots: seq<WindowPacket>, lower: nat, current: nat)
    requires RingOk(slots, lower, current)
    ensures forall k :: k in Held(slots, lower, current) ==> 0 < |Held(slots, lower, current)[k]| <= MAX_PDU_SIZE
  {
    forall k: nat | lower <= k < current ensures 0 < |PduAt(slots, k)| <= MAX_PDU_SIZE {
      assert HoldsAt(slots, k);
    }
  }

  lemma AddKeepsRing(slots: seq<WindowPacket>, lower: nat, current: u32, pdu: Octets)
    requires RingOk(slots, lower, current) && current < lower + |slots| && 0 < |pdu| <= MAX_PDU_SIZE
    ensures var slots' := slots[Slot(current, |slots|) := WindowPacket(current, true, pdu)];
            && RingOk(slots', lower, current + 1)
            && Held(slots', lower, current + 1) == Held(slots, lower, current)[current := pdu]
  {
    var slots' := slots[Slot(current, |slots|) := WindowPacket(current, true, pdu)];
    forall k: nat | lower <= k <= current
      ensures HoldsAt(slots', k) && PduAt(slots', k) == if k == current then pdu else PduAt(slots, k)
    {
      if k < current {
        assert HoldsAt(slots, k);
        SlotsDiffer(k, current, |slots|);
      }
    }
    var next := current + 1;
    forall i: nat | i < |slots| ensures Placed(slots', i, lower, next) {
      assert Placed(slots, i, lower, current);
    }
  }

  /** The slots once number `k` has been marked inactive. */
  function Release(slots: seq<WindowPacket>, k: nat): (r: seq<WindowPacket>)
    requires |slots| > 0
    ensures |r| == |slots|
  {
    var i := Slot(k, |slots|);
    slots[i := slots[i].(active := false)]
  }

  lemma ReleaseKeepsRing(slots: seq<WindowPacket>, lower: nat, current: nat)
    requires RingOk(slots, lower, current) && lower < current
    ensures RingOk(Release(slots, lower), lower + 1, current)
    ensures Held(Release(slots, lower), lower + 1, current) == Held(slots, lower, current) - {lower}
  {
    var slots' := Release(slots, lower);
    assert HoldsAt(slots, lower);
    forall k: nat | lower < k < current
      ensures HoldsAt(slots', k) && PduAt(slots', k) == PduAt(slots, k)
    {
      assert HoldsAt(slots, k);
      SlotsDiffer(lower, k, |slots|);
    }
    var next := lower + 1;
    forall i: nat | i < |slots| ensures Placed(slots', i, next, current) {
      assert Placed(slots, i, lower, current);
    }
  }

  /** The slots once the numbers lower..n-1 have been marked inactive. */
  function Released(slots: seq<WindowPacket>, lower: nat, n: nat): (r: seq<WindowPacket>)
    requires |slots| > 0 && lower <= n
    ensures |r| == |slots|
  {
    if n == lower then slots
    else Release(Released(slots, lower, n - 1), n - 1)
  }

  lemma {:induction false} ReleasedKeepsRing(slots: seq<WindowPacket>, lower: nat, current: nat, n: nat)
    requires RingOk(slots, lower, current) && lower <= n <= current
    ensures RingOk(Released(slots, lower, n), n, current)
    ensures Held(Released(slots, lower, n), n, current) == From(Held(slots, lower, current), n)
  {
    var held := Held(slots, lower, current);
    if n > lower {
      hide RingOk, Held, From, Release;
      var r := Released(slots, lower, n - 1);
      ReleasedKeepsRing(slots, lower, current, n - 1);
      assert Held(r, n - 1, current) == From(held, n - 1);
      ReleaseKeepsRing(r, n - 1, current);
      FromNext(held, n - 1);
    } else {
      assert From(held, n) == held;
    }
  }

  class Window {
    const packets: array<WindowPacket>
    const windowSize: u32
    var lower: u32
    var upper: u32
    var current: u32

    /** The last clause bounds the sequence numbers, so that `upper` does not wrap. */
    ghost predicate Valid()
      reads this, packets
    {
      && packets.Length == windowSize
      && upper == lower + windowSize
      && RingOk(packets[..], lower, current)
      && current + windowSize <= UINT32_MAX
    }

    ghost function View(): (v: WindowView)
      requires Valid()
      reads this, packets
      ensures v.Ok()
    {
      HeldPdus(packets[..], lower, current);
      WindowView(windowSize, lower, current, Held(packets[..], lower, current))
    }

    /** `windowSetUp`. */
    constructor (size: u32)
      requires 0 < size < 0x8000_0000
      ensures Valid() && fresh(packets)
      ensures View() == WindowView(size, 0, 0, map[])
    {
      packets := new WindowPacket[size](_ => WindowPacket(0, false, []));
      windowSize := size;
      lower, current, upper := 0, 0, size;
    }

    method IsWindowOpen() returns (open: bool)
      requires Valid()
      ensures open == View().IsOpen()
    {
      open := current < upper;
    }

    method IsWindowEmpty() returns (empty: bool)
      requires Valid()
      ensures empty == (View().held == map[])
    {
      empty := lower == current;
      assert !empty ==> lower as nat in View().held;
    }

    /** `windowAddPacket`. */
    method WindowAddPacket(pdu: Octets) returns (status: int)
      requires Valid()
      requires current + 1 + windowSize <= UINT32_MAX
      modifies this`current, packets
      ensures Valid()
      ensures status == if old(View()).IsOpen() && 0 < |pdu| <= MAX_PDU_SIZE then 0 else -1
      ensures View() == if status == 0 then old(View()).Add(pdu) else old(View())
    {
      var open := IsWindowOpen();
      if !open {
        return -1;
      }
      if |pdu| == 0 || |pdu| > MAX_PDU_SIZE {
        return -1;
      }
      AddKeepsRing(packets[..], lower, current, pdu);
      packets[Slot(current, windowSize)] := WindowPacket(current, true, pdu);
      current := current + 1;
      return 0;
    }

    /** `getWindowPacket`: the stored PDU, or None for the source's -1. */
    method GetWindowPacket(seqNum: u32) returns (r: Option<Octets>)
      requires Valid()
      ensures r == View().Packet(seqNum)
    {
      if seqNum < lower || seqNum >= current {
        return None;
      }
      var packet := packets[Slot(seqNum, windowSize)];
      assert HoldsAt(packets[..], seqNum);
      if !packet.active || packet.seqNum != seqNum {
        return None;
      }
      return Some(packet.pdu);
    }

    /** `getLowestWindowPacket`. */
    method GetLowestWindowPacket() returns (r: Option<Octets>)
      requires Valid()
      ensures r == View().Packet(lower)
      ensures r.None? <==> View().held == map[]
    {
      if lower == current {
        return None;
      }
      r := GetWindowPacket(lower);
      assert lower as nat in View().held;
    }

    /** The loop of `processRR`. */
    method ReleaseUpTo(n: u32)
      requires windowSize > 0 && packets.Length == windowSize && lower <= n
      modifies packets
      ensures packets[..] == Released(old(packets[..]), lower, n)
    {
      for released := lower to n
        invariant packets[..] == Released(old(packets[..]), lower, released)
      {
        var index := Slot(released, windowSize);
        packets[index] := packets[index].(active := false);
      }
    }

    /** `processRR`. */
    method ProcessRR(RRSeqNum: u32)
      requires Valid()
      modifies this`lower, this`upper, packets
      ensures Valid()
      ensures View() == old(View()).AckRR(RRSeqNum)
    {
      if RRSeqNum <= lower {
        return;
      }
      var n := if RRSeqNum > current then current else RRSeqNum;
      ReleasedKeepsRing(packets[..], lower, current, n);
      ReleaseUpTo(n);
      lower := n;
      upper := lower + windowSize;
    }

    /** `processSREJ`. */
    method ProcessSREJ(SREJSeqNum: u32) returns (r: Option<Octets>)
      requires Valid()
      ensures r == View().Packet(SREJSeqNum)
    {
      if SREJSeqNum < lower || SREJSeqNum >= current {
        return None;
      }
      r := GetWindowPacket(SREJSeqNum);
    }
  }
}

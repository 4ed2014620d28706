/** What a receiver is supposed to do, in terms of the set of packets it has been given. */
module ReceiverSpec {
  import opened Bytes
  import opened Ring

  /** The packets accepted so far, and the number the receiver waits for. */
  datatype RecvView = RecvView(got: map<nat, Octets>, expected: nat) {

    /** `expected` is the least number not received. */
    ghost predicate Ok() {
      (forall k: nat :: k < expected ==> k in got) && expected !in got
    }

    /** Something beyond the expected packet is already here. */
    predicate HasGap() {
      exists k | k in got :: k > expected
    }
  }

  const EMPTY := RecvView(map[], 0)

  datatype Control = RR(n: nat) | SREJ(n: nat)

  /** The first number from `n` on that has not been received. */
  function FirstMissing(got: map<nat, Octets>, n: nat): (m: nat)
    ensures m >= n && m !in got
    ensures forall k: nat :: n <= k < m ==> k in got
    decreases From(got, n).Keys
  {
    if n in got then
      assert n in From(got, n).Keys && n !in From(got, n + 1).Keys;
      FirstMissing(got, n + 1)
    else n
  }

  lemma LeastMissingIsUnique(got: map<nat, Octets>, n: nat, m: nat)
    requires m >= n && m !in got && forall k: nat :: n <= k < m ==> k in got
    ensures FirstMissing(got, n) == m
  {
    var _ := FirstMissing(got, n);
  }

  /** A data packet arrives: those below the expected number are duplicates. */
  function Receive(v: RecvView, seqNum: nat, payload: Octets): RecvView {
    if seqNum < v.expected then v
    else
      var got := v.got[seqNum := payload];
      RecvView(got, FirstMissing(got, v.expected))
  }

  /** The answer to a data packet: at most one control message. */
  function Reply(v: RecvView, seqNum: nat, payload: Octets): (r: seq<Control>)
    ensures |r| <= 1
  {
    var v' := Receive(v, seqNum, payload);
    if seqNum < v.expected then [RR(v.expected)]
    else if seqNum == v.expected then [if v'.HasGap() then SREJ(v'.expected) else RR(v'.expected)]
    else if v.HasGap() then []
    else [SREJ(v.expected)]
  }

  /** The payloads of packets 0..n-1, in order. */
  function Output(got: map<nat, Octets>, n: nat): Octets
    requires forall k: nat :: k < n ==> k in got
  {
    if n == 0 then [] else Output(got, n - 1) + got[n - 1]
  }

  lemma {:induction false} OutputDependsOnPrefix(got: map<nat, Octets>, got': map<nat, Octets>, n: nat)
    requires forall k: nat :: k < n ==> k in got && k in got' && got[k] == got'[k]
    ensures Output(got, n) == Output(got', n)
  {
    if n > 0 {
      OutputDependsOnPrefix(got, got', n - 1);
    }
  }

  lemma ReceiveKeepsOk(v: RecvView, seqNum: nat, payload: Octets)
    requires v.Ok()
    ensures Receive(v, seqNum, payload).Ok()
    ensures Receive(v, seqNum, payload).expected >= v.expected
  {
    var v' := Receive(v, seqNum, payload);
    forall k: nat | k < v'.expected ensures k in v'.got {
      if k < v.expected {
        assert k in v.got;
      }
    }
  }

  // ---------------------------------------------------------------- whole runs

  datatype Packet = Packet(seqNum: nat, payload: Octets)

  function Run(v: RecvView, packets: seq<Packet>): RecvView
    decreases packets
  {
    if packets == [] then v
    else Run(Receive(v, packets[0].seqNum, packets[0].payload), packets[1..])
  }

  /** Every control message sent over a run. */
  function Replies(v: RecvView, packets: seq<Packet>): seq<Control>
    decreases packets
  {
    if packets == [] then []
    else Reply(v, packets[0].seqNum, packets[0].payload)
         + Replies(Receive(v, packets[0].seqNum, packets[0].payload), packets[1..])
  }

  /** Packets carrying the same number carry the same payload, namely `original`. */
  ghost predicate Genuine(packets: seq<Packet>, original: map<nat, Octets>) {
    forall p :: p in packets ==> p.seqNum in original && original[p.seqNum] == p.payload
  }

  /** Over any run of genuine packets, in any order and with any duplicates: the receiver has
      exactly the numbers that arrived, each with its original payload, waits for the least
      number that did not arrive, and has written the payloads below it. */
  lemma RunReceivesExactly(packets: seq<Packet>, original: map<nat, Octets>)
    requires Genuine(packets, original)
    ensures var v := Run(EMPTY, packets);
            && v.Ok()
            && (forall k: nat :: k in v.got <==> exists p :: p in packets && p.seqNum == k)
            && (forall k :: k in v.got ==> k in original && v.got[k] == original[k])
            && (forall k: nat :: k < v.expected ==> k in original)
            && Output(v.got, v.expected) == Output(original, v.expected)
  {
    RunFrom(EMPTY, packets, original);
    var v := Run(EMPTY, packets);
    assert forall k: nat :: k < v.expected ==> k in v.got;
    OutputDependsOnPrefix(v.got, original, v.expected);
  }

  lemma {:induction false} RunFrom(v: RecvView, packets: seq<Packet>, original: map<nat, Octets>)
    requires v.Ok() && Genuine(packets, original)
    requires forall k :: k in v.got ==> k in original && v.got[k] == original[k]
    ensures var v' := Run(v, packets);
            && v'.Ok()
            && (forall k: nat :: k in v'.got <==> k in v.got || exists p :: p in packets && p.seqNum == k)
            && (forall k :: k in v'.got ==> k in original && v'.got[k] == original[k])
    decreases packets
  {
    if packets != [] {
      var p, rest := packets[0], packets[1..];
      assert packets == [p] + rest;
      var v1 := Receive(v, p.seqNum, p.payload);
      ReceiveKeepsOk(v, p.seqNum, p.payload);
      assert forall k: nat :: k in v1.got <==> k in v.got || k == p.seqNum;
      RunFrom(v1, rest, original);
    }
  }

  lemma {:induction false} RunAppend(v: RecvView, a: seq<Packet>, b: seq<Packet>)
    ensures Run(v, a + b) == Run(Run(v, a), b)
    decreases a
  {
    hide Receive;
    if a == [] {
      assert a + b == b;
    } else {
      assert (a + b)[0] == a[0] && (a + b)[1..] == a[1..] + b;
      RunAppend(Receive(v, a[0].seqNum, a[0].payload), a[1..], b);
    }
  }

  /** Packets with other numbers, and packets below the expected number, leave a copy alone. */
  lemma {:induction false} CopyStays(v: RecvView, packets: seq<Packet>, k: nat)
    requires v.Ok() && k in v.got
    requires k < v.expected || forall p :: p in packets ==> p.seqNum != k
    ensures k in Run(v, packets).got && Run(v, packets).got[k] == v.got[k]
    decreases packets
  {
    if packets != [] {
      var p := packets[0];
      assert p in packets;
      ReceiveKeepsOk(v, p.seqNum, p.payload);
      CopyStays(Receive(v, p.seqNum, p.payload), packets[1..], k);
    }
  }

  /** Of several copies of a packet, whatever they carry, the receiver has the last one that came
      before the packet was written, and once it is written that is final. */
  lemma LastCopyIsKept(before: seq<Packet>, p: Packet, after: seq<Packet>)
    requires p.seqNum >= Run(EMPTY, before).expected
    requires p.seqNum < Run(EMPTY, before + [p]).expected || forall q :: q in after ==> q.seqNum != p.seqNum
    ensures var v := Run(EMPTY, before + [p] + after);
            p.seqNum in v.got && v.got[p.seqNum] == p.payload
  {
    hide Receive;
    RunKeepsOk(EMPTY, before);
    RunAppend(EMPTY, before, [p]);
    assert Run(Run(EMPTY, before), [p]) == Receive(Run(EMPTY, before), p.seqNum, p.payload) by {
      OnePacket(Run(EMPTY, before), p);
    }
    CopyTaken(Run(EMPTY, before), p);
    RunAppend(EMPTY, before + [p], after);
    CopyStays(Run(EMPTY, before + [p]), after, p.seqNum);
  }

  lemma OnePacket(v: RecvView, p: Packet)
    ensures Run(v, [p]) == Receive(v, p.seqNum, p.payload)
  {
    assert [p][1..] == [];
    assert Run(Receive(v, p.seqNum, p.payload), []) == Receive(v, p.seqNum, p.payload);
  }

  lemma CopyTaken(v: RecvView, p: Packet)
    requires v.Ok() && p.seqNum >= v.expected
    ensures var v' := Receive(v, p.seqNum, p.payload);
            v'.Ok() && p.seqNum in v'.got && v'.got[p.seqNum] == p.payload
  {
    ReceiveKeepsOk(v, p.seqNum, p.payload);
  }

  lemma {:induction false} RunKeepsOk(v: RecvView, packets: seq<Packet>)
    requires v.Ok()
    ensures Run(v, packets).Ok()
    decreases packets
  {
    hide Receive;
    if packets != [] {
      ReceiveKeepsOk(v, packets[0].seqNum, packets[0].payload);
      RunKeepsOk(Receive(v, packets[0].seqNum, packets[0].payload), packets[1..]);
    }
  }

  ghost predicate NonDecreasing(c: seq<Control>, from: nat, to: nat) {
    && (forall i :: 0 <= i < |c| ==> from <= c[i].n <= to)
    && (forall i, j :: 0 <= i < j < |c| ==> c[i].n <= c[j].n)
  }

  /** No two SREJs of the list carry the same number. */
  ghost predicate RejectsOnce(c: seq<Control>) {
    forall i, j :: 0 <= i < j < |c| && c[i].SREJ? && c[j].SREJ? ==> c[i].n < c[j].n
  }

  /** Over any run whatever, control numbers never decrease, stay between the numbers expected
      before and after, and every gap is rejected at most once: SREJ numbers strictly increase. */
  lemma {:induction false} ControlTrace(v: RecvView, packets: seq<Packet>)
    requires v.Ok()
    ensures NonDecreasing(Replies(v, packets), v.expected, Run(v, packets).expected)
    ensures RejectsOnce(Replies(v, packets))
    ensures v.HasGap() ==> forall c :: c in Replies(v, packets) && c.SREJ? ==> c.n > v.expected
    ensures Run(v, packets).expected >= v.expected
    decreases packets
  {
    if packets != [] {
      var p, rest := packets[0], packets[1..];
      var v1, r := Receive(v, p.seqNum, p.payload), Reply(v, p.seqNum, p.payload);
      OneReply(v, p.seqNum, p.payload);
      ControlTrace(v1, rest);
      assert Replies(v, packets) == r + Replies(v1, rest);
    }
  }

  /** Over any run, the number waited for is always announced: if something is missing at the
      end, an SREJ for it was sent; if not, an RR for it was. With ControlTrace, every gap is
      rejected exactly once. */
  lemma AlwaysAnnounced(packets: seq<Packet>)
    ensures var v, c := Run(EMPTY, packets), Replies(EMPTY, packets);
            && (v.HasGap() ==> SREJ(v.expected) in c)
            && (!v.HasGap() && v.expected > 0 ==> RR(v.expected) in c)
  {
    AnnouncedFrom(EMPTY, packets);
  }

  lemma {:induction false} AnnouncedFrom(v: RecvView, packets: seq<Packet>)
    requires v.Ok()
    ensures var v', c := Run(v, packets), Replies(v, packets);
            && v'.expected >= v.expected
            && (v'.HasGap() ==> SREJ(v'.expected) in c || (v.HasGap() && v.expected == v'.expected))
            && (!v'.HasGap() && v'.expected > v.expected ==> RR(v'.expected) in c)
            && (v.HasGap() && v'.expected == v.expected ==> v'.HasGap())
    decreases packets
  {
    if packets != [] {
      var p, rest := packets[0], packets[1..];
      var v1, r := Receive(v, p.seqNum, p.payload), Reply(v, p.seqNum, p.payload);
      OneReply(v, p.seqNum, p.payload);
      AnnouncedFrom(v1, rest);
      assert Replies(v, packets) == r + Replies(v1, rest);
      assert r != [] ==> r[0] in Replies(v, packets);
    }
  }

  lemma OneReply(v: RecvView, seqNum: nat, payload: Octets)
    requires v.Ok()
    ensures var v', r := Receive(v, seqNum, payload), Reply(v, seqNum, payload);
            && v'.expected >= v.expected && v'.Ok()
            && (v.HasGap() && v'.expected == v.expected ==> v'.HasGap())
            && (v'.HasGap() ==> r == [SREJ(v'.expected)] || (v.HasGap() && v'.expected == v.expected))
            && forall c :: c in r ==>
                 && c.n == v'.expected
                 && (c.SREJ? ==> v'.HasGap() && (v.HasGap() ==> c.n > v.expected))
  {
    ReceiveKeepsOk(v, seqNum, payload);
    var v' := Receive(v, seqNum, payload);
    if seqNum > v.expected {
      assert seqNum in v'.got;
    } else if seqNum < v.expected {
    } else {
      assert v.expected in v'.got;
    }
  }
}

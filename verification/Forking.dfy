/** The server host as a whole, server.c: a parent that forks a child for every filename request,
    children that answer from addresses of their own and write to the same output file, and a
    client that sends to whichever address it last took an answer from. */
module Forking {
  import opened Bytes
  import opened Checksum
  import opened Pdu
  import opened Channel
  import opened ReceiverSpec
  import opened SenderSpec
  import opened ServerSpec
  import opened Transfer
  import opened Recovery

  /** A child process, and the offset of its own descriptor of the output file. */
  datatype Child = Child(srv: Server, offset: nat)

  /** A packet to or from the address of a child. */
  datatype Mail = Mail(child: nat, p: Octets)

  /** Packets stay on the wire, as in Transfer.Sys. */
  datatype World = World(
    snd: Sender,
    addr: Option<nat>,      // info->server: the parent, or a child
    peer: Option<nat>,      // history: the child whose consent the client took
    children: seq<Child>,
    toParent: set<Octets>,
    toChildren: set<Mail>,
    toClient: set<Mail>,
    disk: Octets,           // the output file
    cut: nat)               // history: what the peer had written when the file was last truncated

  /** Nothing has been sent; the output file may exist already. */
  function InitialWorld(c: Config, disk: Octets): World {
    World(InitialSender(c), None, None, [], {}, {}, {}, disk, 0)
  }

  datatype Turn =
    | ClientTurn(input: SenderSpec.Input, from: nat, fate: Fate)
    | ParentTurn(p: Octets, stale: Octets, opens: bool, fate: Fate)
    | ChildTurn(child: nat, request: ServerInput, fate: Fate)

  // ---------------------------------------------------------------- the output file

  function Zeros(n: nat): (z: Octets)
    ensures |z| == n && forall i :: 0 <= i < n ==> z[i] == 0
  {
    seq(n, _ => 0)
  }

  /** `write` at an offset: a gap behind the end of the file is filled with zeros. */
  function WriteAt(disk: Octets, offset: nat, data: Octets): Octets {
    if data == [] then disk
    else
      (if offset <= |disk| then disk[..offset] else disk + Zeros(offset - |disk|))
      + data
      + (if offset + |data| < |disk| then disk[offset + |data|..] else [])
  }

  /** The payloads of packets m..n-1, in order. */
  function Between(got: map<nat, Octets>, m: nat, n: nat): Octets
    requires m <= n && forall k: nat :: m <= k < n ==> k in got
  {
    if m == n then [] else Between(got, m, n - 1) + got[n - 1]
  }

  /** What bufferProcessPDU writes for a data packet. */
  function Flushed(v: RecvView, seqNum: nat, payload: Octets): Octets {
    if seqNum < v.expected then []
    else
      var v' := Receive(v, seqNum, payload);
      Between(v'.got, v.expected, v'.expected)
  }

  // ---------------------------------------------------------------- turns

  function Post(net: set<Mail>, child: nat, out: seq<Octets>, fate: Fate): set<Mail>
    requires CanCarry(out, fate)
  {
    if out == [] then net
    else
      match Arrives(fate, out[0])
      case None => net
      case Some(q) => net + {Mail(child, q)}
  }

  function FirstInput(t: Turn): ServerInput
    requires t.ParentTurn?
  {
    ServerInput.Packet(t.p, t.stale, t.opens)
  }

  predicate CanTake(c: Config, w: World, t: Turn) {
    match t
    case ClientTurn(i, from, fate) =>
      (i.Arrived? ==> Mail(from, i.p) in w.toClient) && CanCarry(SenderStep(c, w.snd, i).out, fate)
    case ParentTurn(p, _, _, fate) => p in w.toParent && CanCarry(ListenStep(INITIAL_SERVER, FirstInput(t)).out, fate)
    case ChildTurn(j, i, fate) =>
      && j < |w.children| && (i.Packet? ==> Mail(j, i.p) in w.toChildren)
      && CanCarry(ServerStep(w.children[j].srv, i).out, fate)
  }

  /** `recvfromErr` stores the sender's address in WAIT_FILENAME_ACK and in WAIT_EOF_ACK, before
      anything is checked; in PROCESS_ACKS it does not. */
  function AddrAfter(w: World, i: SenderSpec.Input, from: nat): Option<nat> {
    if i.Arrived? && (w.snd.mode == WAIT_FILENAME_ACK || w.snd.mode == WAIT_EOF_ACK) then Some(from) else w.addr
  }

  function AfterClient(c: Config, w: World, i: SenderSpec.Input, from: nat, fate: Fate): World
    requires CanCarry(SenderStep(c, w.snd, i).out, fate)
  {
    var r, addr := SenderStep(c, w.snd, i), AddrAfter(w, i, from);
    w.(snd := r.next,
       addr := addr,
       peer := if w.snd.mode == WAIT_FILENAME_ACK && r.next.mode == SEND_DATA then Some(from) else w.peer,
       toParent := if addr.None? then Transmit(w.toParent, r.out, fate) else w.toParent,
       toChildren := if addr.None? then w.toChildren else Post(w.toChildren, addr.value, r.out, fate))
  }

  /** What the peer has written. */
  function PeerOffset(w: World): nat {
    if w.peer.Some? && w.peer.value < |w.children| then w.children[w.peer.value].offset else 0
  }

  /** `runServer` forks a child for every valid request; the child opens the file with O_TRUNC. */
  function AfterParent(w: World, i: ServerInput, fate: Fate): World
    requires i.Packet? && CanCarry(ListenStep(INITIAL_SERVER, i).out, fate)
  {
    if !IsRequest(i.p) then w
    else
      var r := ListenStep(INITIAL_SERVER, i);
      var truncates := r.next.phase == RECEIVING;
      w.(children := w.children + [Child(r.next, 0)],
         toClient := Post(w.toClient, |w.children|, r.out, fate),
         disk := if truncates then [] else w.disk,
         cut := if truncates then PeerOffset(w) else w.cut)
  }

  function Writes(s: Server, i: ServerInput): Octets {
    if s.phase == RECEIVING && IsData(i) then Flushed(s.recv, SequenceNum(i.p), Payload(i.p)) else []
  }

  function AfterChild(w: World, j: nat, i: ServerInput, fate: Fate): World
    requires j < |w.children| && CanCarry(ServerStep(w.children[j].srv, i).out, fate)
  {
    var child := w.children[j];
    var r, data := ServerStep(child.srv, i), Writes(child.srv, i);
    w.(children := w.children[j := Child(r.next, child.offset + |data|)],
       toClient := Post(w.toClient, j, r.out, fate),
       disk := WriteAt(w.disk, child.offset, data))
  }

  function Take(c: Config, w: World, t: Turn): World
    requires CanTake(c, w, t)
  {
    match t
    case ClientTurn(i, from, fate) => AfterClient(c, w, i, from, fate)
    case ParentTurn(_, _, _, fate) => AfterParent(w, FirstInput(t), fate)
    case ChildTurn(j, i, fate) => AfterChild(w, j, i, fate)
  }

  /** The world after a list of turns, if each could be taken. */
  function Go(c: Config, w: World, turns: seq<Turn>): Option<World>
    decreases turns
  {
    if turns == [] then Some(w)
    else if CanTake(c, w, turns[0]) then Go(c, Take(c, w, turns[0]), turns[1..])
    else None
  }

  lemma {:induction false} GoAppend(c: Config, w: World, a: seq<Turn>, b: seq<Turn>)
    ensures Go(c, w, a + b) == match Go(c, w, a) case None => None case Some(u) => Go(c, u, b)
    decreases a
  {
    hide CanTake, Take;
    if a == [] {
      assert a + b == b;
    } else {
      assert (a + b)[0] == a[0] && (a + b)[1..] == a[1..] + b;
      if CanTake(c, w, a[0]) {
        GoAppend(c, Take(c, w, a[0]), a[1..], b);
      }
    }
  }

  // ---------------------------------------------------------------- one child and the client

  function To(net: set<Mail>, j: nat): set<Octets> {
    set m | m in net && m.child == j :: m.p
  }

  function All(net: set<Mail>): set<Octets> {
    set m | m in net :: m.p
  }

  /** What child `j` and the client see of the world: a transfer between two. */
  function View(w: World, j: nat): Sys
    requires j < |w.children|
  {
    Sys(w.snd, w.children[j].srv, To(w.toChildren, j), All(w.toClient))
  }

  lemma PostViews(net: set<Mail>, j: nat, out: seq<Octets>, fate: Fate)
    requires CanCarry(out, fate)
    ensures All(Post(net, j, out, fate)) == Transmit(All(net), out, fate)
    ensures To(Post(net, j, out, fate), j) == Transmit(To(net, j), out, fate)
    ensures forall k: nat :: k != j ==> To(Post(net, j, out, fate), k) == To(net, k)
  {
    var net' := Post(net, j, out, fate);
    if net' != net {
      var q := Arrives(fate, out[0]).value;
      var m := Mail(j, q);
      assert net' == net + {m};
      assert forall p :: p in All(net') <==> p in All(net) || p == q;
      assert forall p :: p in To(net', j) <==> p in To(net, j) || p == q;
    }
  }

  // ---------------------------------------------------------------- the invariant

  predicate Carries(p: Octets, flag: byte) {
    Usable(p) && Flag(p) == flag
  }

  predicate IsReply(p: Octets) {
    Carries(p, FLAG_RR) || Carries(p, FLAG_SREJ)
  }

  /** A child that the client sends no data to: it has written nothing. */
  ghost predicate Idle(c: Config, snd: Sender, child: Child) {
    && child.srv.recv == EMPTY && child.offset == 0
    && (child.srv.phase.EOF_LOOP? ==> AllAcknowledged(c, snd))
    && (child.srv.phase == RECEIVING || child.srv.phase.EOF_LOOP? ==> child.srv.windowSize == c.windowSize)
  }

  ghost predicate MailOk(c: Config, w: World) {
    && (forall p :: p in w.toParent ==> FromClient(c, w.snd, p) && (Usable(p) ==> IsRequest(p)))
    && (forall m :: m in w.toChildren ==>
          && m.child < |w.children| && FromClient(c, w.snd, m.p)
          && (Some(m.child) != w.peer ==> !Carries(m.p, FLAG_DATA)))
    && (forall m :: m in w.toClient ==>
          && m.child < |w.children| && FromServer(c, w.snd, w.children[m.child].srv, m.p)
          && (Some(m.child) != w.peer ==> !IsReply(m.p)))
  }

  predicate RequestAtParent(w: World) {
    exists p | p in w.toParent :: IsRequest(p)
  }

  /** Before the client has taken a consent it has no data to send; from then on it and its peer
      are a transfer between two, and all data goes to the peer. */
  ghost predicate PeerOk(c: Config, w: World) {
    match w.peer
    case None => !PastHandshake(w.snd) && (InHandshake(w.snd) || w.snd.mode == DONE)
    case Some(j) =>
      && j < |w.children| && w.addr.Some? && !InHandshake(w.snd)
      && Good(c, View(w, j)) && Agreed(c, w.children[j].srv)
      && (InData(w.snd) ==> w.addr == Some(j))
  }

  ghost predicate Sound(c: Config, w: World) {
    && SenderOk(c, w.snd) && MailOk(c, w) && PeerOk(c, w)
    && (forall j: nat :: j < |w.children| ==>
          w.children[j].srv.phase != LISTENING && (Some(j) != w.peer ==> Idle(c, w.snd, w.children[j])))
    && (w.addr.Some? ==> w.addr.value < |w.children|)
    && (w.children != [] ==> RequestAtParent(w))
  }

  lemma InitialSound(c: Config, disk: Octets)
    requires c.Ok()
    ensures Sound(c, InitialWorld(c, disk))
  {
    InitialSenderOk(c);
  }

  // ---------------------------------------------------------------- what others send is noise

  /** An answer of a child that gets no data. */
  predicate IsNoise(c: Config, snd: Sender, q: Octets) {
    Usable(q) ==>
      || (Flag(q) == FLAG_FILENAME_RESPONSE && |q| == HEADER_LEN + 1)
      || (Flag(q) == FLAG_EOF_ACK && AllAcknowledged(c, snd))
  }

  function WithNoise(s: Sys, q: Octets): Sys {
    s.(toClient := s.toClient + {q})
  }

  lemma NoiseKeepsGood(c: Config, s: Sys, q: Octets)
    requires Good(c, s) && Agreed(c, s.srv) && IsNoise(c, s.snd, q)
    ensures Good(c, WithNoise(s, q))
  {
    hide ChecksumOk, EncodePdu, FilenamePayload, SenderOk, ReceiverOk, FromClient;
    var s' := WithNoise(s, q);
    forall p | p in s'.toClient ensures FromServer(c, s.snd, s.srv, p) {
      assert p == q || p in s.toClient;
    }
    forall k | k in s'.srv.recv.got ensures DataOnWire(s', k) {
      assert DataOnWire(s, k);
    }
    forall p | p in s'.toClient && IsControl(p, FLAG_SREJ) ensures exists k :: k > ControlNumber(p) && DataOnWire(s', k) {
      assert p in s.toClient;
      var k :| k > ControlNumber(p) && DataOnWire(s, k);
      assert DataOnWire(s', k);
    }
  }

  /** Past the handshake it makes no difference to what can still be completed. */
  lemma NoiseChangesNothing(c: Config, s: Sys, q: Octets)
    requires IsNoise(c, s.snd, q) && !InHandshake(s.snd)
    ensures Completable(c, WithNoise(s, q)) <==> Completable(c, s)
  {
    hide ChecksumOk;
    var s' := WithNoise(s, q);
    assert forall n: nat, p :: p in s'.toClient && p !in s.toClient ==>
             !IsAnswer(p, FLAG_RR, n) && !IsAnswer(p, FLAG_SREJ, n);
    assert forall n: nat :: AnswerOnWire(s', FLAG_RR, n) <==> AnswerOnWire(s, FLAG_RR, n);
    assert forall n: nat :: AnswerOnWire(s', FLAG_SREJ, n) <==> AnswerOnWire(s, FLAG_SREJ, n);
    SameData(s, s');
  }

  // ---------------------------------------------------------------- the client's turn

  /** What goes to somebody else is lost for the peer. */
  function FateForPeer(w: World, i: SenderSpec.Input, from: nat, fate: Fate): Fate {
    if AddrAfter(w, i, from) == w.peer then fate else Dropped
  }

  /** With a peer, a turn of the client is a step of the transfer between the two. */
  lemma ClientView(c: Config, w: World, i: SenderSpec.Input, from: nat, fate: Fate)
    requires c.Ok() && Sound(c, w) && CanTake(c, w, ClientTurn(i, from, fate)) && w.peer.Some?
    ensures var s, e := View(w, w.peer.value), Client(i, FateForPeer(w, i, from, fate));
            && Enabled(c, s, e)
            && AfterClient(c, w, i, from, fate).peer == w.peer
            && View(AfterClient(c, w, i, from, fate), w.peer.value) == Next(c, s, e)
  {
    hide SenderStep, MailOk, SenderOk, Good, Idle;
    var out := SenderStep(c, w.snd, i).out;
    var addr := AddrAfter(w, i, from);
    PostViews(w.toChildren, addr.value, out, fate);
    assert i.Arrived? ==> i.p in All(w.toClient);
  }

  /** Later states of the client take back nothing that a packet relies on. */
  predicate NotBeforeClient(c: Config, snd: Sender, snd': Sender) {
    snd.win.current <= snd'.win.current <= |c.chunks| && (AllAcknowledged(c, snd) ==> AllAcknowledged(c, snd'))
  }

  lemma ModesAndFlags(c: Config, snd: Sender, i: SenderSpec.Input)
    requires c.Ok()
    ensures var r := SenderStep(c, snd, i);
            && |r.out| <= 1
            && (InData(r.next) ==> InData(snd) || InHandshake(snd))
            && (InHandshake(r.next) ==> InHandshake(snd))
            && (r.out != [] && InHandshake(snd) ==>
                  && IsRequest(r.out[0]) && Encoded(r.out[0])
                  && Payload(r.out[0]) == FilenamePayload(c.windowSize, c.bufferSize, c.toFile))
            && (r.out != [] && !InData(snd) ==> !Carries(r.out[0], FLAG_DATA))
  {
    hide EncodePdu, FilenamePayload, ChecksumOk;
    var n := snd.controlSeqNum;
    EncodedPdu(n, FLAG_FILENAME, FilenamePayload(c.windowSize, c.bufferSize, c.toFile));
    EncodedPdu(n, FLAG_EOF, []);
    EncodedPdu(n, FLAG_FINAL_ACK, []);
  }

  lemma HandshakeKeepsWindow(c: Config, snd: Sender, i: SenderSpec.Input)
    requires InHandshake(snd) || snd.mode == DONE
    ensures var r := SenderStep(c, snd, i);
            && r.next.win == snd.win && r.next.eofReached == snd.eofReached
            && (snd.mode == DONE ==> r == Step(snd, []))
  {
    hide EncodePdu, FilenamePayload, Usable;
  }

  /** What the client's step means for the post. */
  lemma ControlsSent(c: Config, w: World, i: SenderSpec.Input)
    requires c.Ok() && Sound(c, w) && (i.Arrived? ==> i.p in All(w.toClient))
    ensures var r := SenderStep(c, w.snd, i);
            && SenderOk(c, r.next) && NotBeforeClient(c, w.snd, r.next)
            && (InData(r.next) ==> InData(w.snd) || InHandshake(w.snd))
            && (InHandshake(r.next) ==> InHandshake(w.snd))
            && |r.out| <= 1
            && (r.out != [] ==>
                  && Encoded(r.out[0]) && FromClient(c, r.next, r.out[0])
                  && (InHandshake(w.snd) ==> IsRequest(r.out[0]))
                  && (w.peer.None? ==> InHandshake(w.snd))
                  && (!InData(w.snd) ==> !Carries(r.out[0], FLAG_DATA)))
  {
    hide SenderStep, EncodePdu, FilenamePayload, ChecksumOk, MailOk, Idle;
    ModesAndFlags(c, w.snd, i);
    if w.peer.Some? {
      ClientStepKeeps(c, View(w, w.peer.value), i);
    } else {
      StepKeepsSenderOk(c, w.snd, i);
      HandshakeKeepsWindow(c, w.snd, i);
    }
  }

  lemma StaysGenuine(c: Config, snd: Sender, snd': Sender)
    requires NotBeforeClient(c, snd, snd')
    ensures forall p :: FromClient(c, snd, p) ==> FromClient(c, snd', p)
    ensures forall srv, p :: FromServer(c, snd, srv, p) ==> FromServer(c, snd', srv, p)
  {
    hide Usable, FilenamePayload, AllAcknowledged, Agreed;
  }

  /** What arrives of a genuine packet: the packet, or something that is not usable. */
  lemma ArrivalIsGenuine(c: Config, snd: Sender, p: Octets, fate: Fate)
    requires Encoded(p) && Possible(fate, p)
    ensures var q := Arrives(fate, p);
            q.Some? ==>
              && (FromClient(c, snd, p) ==> FromClient(c, snd, q.value))
              && (forall srv :: FromServer(c, snd, srv, p) ==> FromServer(c, snd, srv, q.value))
              && (forall flag :: Carries(q.value, flag) ==> Carries(p, flag))
              && (IsRequest(p) ==> Usable(q.value) ==> IsRequest(q.value))
  {
    hide ChecksumOk, EncodePdu, FilenamePayload;
    OnlyOriginalUsable(p, fate);
  }

  /** The post stays in order: data goes to the peer only, and the parent gets requests only. */
  lemma ClientMail(c: Config, w: World, i: SenderSpec.Input, from: nat, fate: Fate)
    requires c.Ok() && Sound(c, w) && CanTake(c, w, ClientTurn(i, from, fate))
    ensures MailOk(c, AfterClient(c, w, i, from, fate))
  {
    hide SenderStep, Usable, SenderOk, Good, Idle, FromClient, FromServer, IsRequest, Carries, IsReply, Encoded;
    ControlsSent(c, w, i);
    var w' := AfterClient(c, w, i, from, fate);
    assert w.peer.Some? ==> w'.peer == w.peer;
    StaysGenuine(c, w.snd, w'.snd);
    var out := SenderStep(c, w.snd, i).out;
    if out != [] {
      ArrivalIsGenuine(c, w'.snd, out[0], fate);
    }
  }

  /** The rest of the invariant, for a turn of the client. */
  lemma ClientRest(c: Config, w: World, i: SenderSpec.Input, from: nat, fate: Fate)
    requires c.Ok() && Sound(c, w) && CanTake(c, w, ClientTurn(i, from, fate))
    ensures var w' := AfterClient(c, w, i, from, fate);
            && (forall j: nat :: j < |w'.children| ==>
                  w'.children[j].srv.phase != LISTENING && (Some(j) != w'.peer ==> Idle(c, w'.snd, w'.children[j])))
            && (w'.addr.Some? ==> w'.addr.value < |w'.children|)
            && (w'.children != [] ==> RequestAtParent(w'))
  {
    hide SenderStep, SenderOk, Good, IsRequest, FromClient, FromServer, Carries, IsReply;
    ControlsSent(c, w, i);
    var w' := AfterClient(c, w, i, from, fate);
    assert w.peer.Some? ==> w'.peer == w.peer;
    if w.children != [] {
      var p :| p in w.toParent && IsRequest(p);
      assert p in w'.toParent;
    }
  }

  lemma ClientKeepsSoundWithPeer(c: Config, w: World, i: SenderSpec.Input, from: nat, fate: Fate)
    requires c.Ok() && Sound(c, w) && CanTake(c, w, ClientTurn(i, from, fate)) && w.peer.Some?
    ensures Sound(c, AfterClient(c, w, i, from, fate))
  {
    hide SenderStep, SenderOk, Good, MailOk, Idle, RequestAtParent;
    var s, e := View(w, w.peer.value), Client(i, FateForPeer(w, i, from, fate));
    ControlsSent(c, w, i);
    ClientMail(c, w, i, from, fate);
    ClientRest(c, w, i, from, fate);
    ClientView(c, w, i, from, fate);
    NextKeepsGood(c, s, e);
  }

  /** A child that consented is fit to be the peer. */
  lemma ConsentingIsGood(c: Config, w: World, j: nat, p: Octets)
    requires c.Ok() && Sound(c, w) && w.peer.None? && Mail(j, p) in w.toClient && IsConsent(p)
    ensures j < |w.children| && Agreed(c, w.children[j].srv) && Good(c, View(w, j))
  {
    hide ChecksumOk, EncodePdu, FilenamePayload;
    assert FromServer(c, w.snd, w.children[j].srv, p);
    var s := View(w, j);
    forall q | q in s.toClient ensures FromServer(c, s.snd, s.srv, q) && !IsReply(q) {
      var m :| m in w.toClient && m.p == q;
      assert FromServer(c, w.snd, w.children[m.child].srv, q);
    }
  }

  lemma ClientKeepsSoundInHandshake(c: Config, w: World, i: SenderSpec.Input, from: nat, fate: Fate)
    requires c.Ok() && Sound(c, w) && CanTake(c, w, ClientTurn(i, from, fate)) && w.peer.None?
    ensures Sound(c, AfterClient(c, w, i, from, fate))
  {
    hide SenderOk, Good, MailOk, Idle, RequestAtParent, Usable, EncodePdu, FilenamePayload;
    ControlsSent(c, w, i);
    ClientMail(c, w, i, from, fate);
    ClientRest(c, w, i, from, fate);
    var w' := AfterClient(c, w, i, from, fate);
    if w'.peer.Some? {
      ConsentingIsGood(c, w, from, i.p);
      NextKeepsGood(c, View(w, from), Client(i, fate));
      assert View(w', from) == Next(c, View(w, from), Client(i, fate));
    } else {
      HandshakeKeepsWindow(c, w.snd, i);
    }
  }

  // ---------------------------------------------------------------- a child's turn

  /** For the client and its peer, a turn of the peer is a step of the transfer between the two. */
  lemma PeerView(c: Config, w: World, j: nat, i: ServerInput, fate: Fate)
    requires c.Ok() && Sound(c, w) && CanTake(c, w, ChildTurn(j, i, fate)) && w.peer == Some(j)
    ensures var s, e := View(w, j), Host(i, fate);
            Enabled(c, s, e) && View(AfterChild(w, j, i, fate), j) == Next(c, s, e)
  {
    hide ServerStep, MailOk, SenderOk, Good, Idle, Flushed, Between, WriteAt;
    PostViews(w.toClient, j, ServerStep(w.children[j].srv, i).out, fate);
    assert i.Packet? ==> i.p in To(w.toChildren, j);
  }

  lemma PeerKeepsSound(c: Config, w: World, j: nat, i: ServerInput, fate: Fate)
    requires c.Ok() && Sound(c, w) && CanTake(c, w, ChildTurn(j, i, fate)) && w.peer == Some(j)
    ensures Sound(c, AfterChild(w, j, i, fate))
  {
    hide ServerStep, SenderOk, Idle, Flushed, Between, WriteAt, FromClient, FromServer, IsRequest, Carries, IsReply;
    hide ReceiverOk, Traces, Enabled, Next, Transmit, Post;
    var s, w' := View(w, j), AfterChild(w, j, i, fate);
    PeerView(c, w, j, i, fate);
    NextKeepsGood(c, s, Host(i, fate));
    NextKeepsInv(c, s, Host(i, fate));
    PeerAgreed(c, s, i, fate);
    forall m | m in w'.toClient
      ensures && m.child < |w'.children| && FromServer(c, w'.snd, w'.children[m.child].srv, m.p)
              && (Some(m.child) != w'.peer ==> !IsReply(m.p))
    {
      PostedBy(w.toClient, j, ServerStep(w.children[j].srv, i).out, fate, m);
      assert m.child == j ==> m.p in View(w', j).toClient;
    }
  }

  lemma PostedBy(net: set<Mail>, j: nat, out: seq<Octets>, fate: Fate, m: Mail)
    requires CanCarry(out, fate) && m in Post(net, j, out, fate)
    ensures m in net || (m.child == j && out != [] && Arrives(fate, out[0]) == Some(m.p))
  {
  }

  lemma PeerAgreed(c: Config, s: Sys, i: ServerInput, fate: Fate)
    requires c.Ok() && Good(c, s) && Agreed(c, s.srv) && Enabled(c, s, Host(i, fate))
    ensures Agreed(c, Next(c, s, Host(i, fate)).srv)
  {
    hide ServerStep, Inv, Traces;
    ServerStepKeeps(c, s, i);
  }

  /** What a child that gets no data does. */
  lemma IdleStep(c: Config, w: World, j: nat, i: ServerInput)
    requires c.Ok() && Sound(c, w) && j < |w.children| && Some(j) != w.peer
    requires i.Packet? ==> Mail(j, i.p) in w.toChildren
    ensures var child := w.children[j];
            var r := ServerStep(child.srv, i);
            && Writes(child.srv, i) == [] && child.offset == 0 && Idle(c, w.snd, Child(r.next, 0))
            && r.next.phase != LISTENING && (r.next.phase == RECEIVING ==> child.srv.phase == RECEIVING)
            && r.next.windowSize == child.srv.windowSize && r.next.recv == child.srv.recv
            && (r.out != [] ==>
                  && Encoded(r.out[0]) && FromServer(c, w.snd, r.next, r.out[0])
                  && Carries(r.out[0], FLAG_EOF_ACK) && AllAcknowledged(c, w.snd))
  {
    hide EncodePdu, FilenamePayload, ChecksumOk, Good, SenderOk;
    EncodedPdu(w.children[j].srv.controlSeqNum, FLAG_EOF_ACK, []);
    HostPhases(w.children[j].srv, i);
    assert i.Packet? ==> FromClient(c, w.snd, i.p);
  }

  lemma StaysGenuineFrom(c: Config, snd: Sender, srv: Server, srv': Server)
    requires srv'.recv == srv.recv && srv'.windowSize == srv.windowSize && srv'.phase != LISTENING
    ensures forall p :: FromServer(c, snd, srv, p) ==> FromServer(c, snd, srv', p)
  {
    hide Usable, FilenamePayload, AllAcknowledged;
  }

  lemma IdleKeepsSound(c: Config, w: World, j: nat, i: ServerInput, fate: Fate)
    requires c.Ok() && Sound(c, w) && CanTake(c, w, ChildTurn(j, i, fate)) && Some(j) != w.peer
    ensures Sound(c, AfterChild(w, j, i, fate))
  {
    hide ServerStep, SenderOk, Flushed, Between, WriteAt, FromClient, FromServer, Usable, IsRequest, Idle, Post, Good;
    var w' := AfterChild(w, j, i, fate);
    IdleStep(c, w, j, i);
    var out := ServerStep(w.children[j].srv, i).out;
    if out != [] {
      ArrivalIsGenuine(c, w.snd, out[0], fate);
    }
    StaysGenuineFrom(c, w.snd, w.children[j].srv, w'.children[j].srv);
    forall m | m in w'.toClient
      ensures && m.child < |w'.children| && FromServer(c, w'.snd, w'.children[m.child].srv, m.p)
              && (Some(m.child) != w'.peer ==> !IsReply(m.p))
    {
      PostedBy(w.toClient, j, out, fate, m);
    }
    if w.peer.Some? {
      IdleView(c, w, j, i, fate);
      NoiseKeepsSound(c, View(w, w.peer.value), View(w', w.peer.value));
    }
  }

  /** For the client and its peer, what others send is nothing or noise. */
  ghost predicate NoiseAtMost(c: Config, s: Sys, s': Sys) {
    s' == s || exists q :: IsNoise(c, s.snd, q) && s' == WithNoise(s, q)
  }

  lemma NoiseKeepsSound(c: Config, s: Sys, s': Sys)
    requires Good(c, s) && Agreed(c, s.srv) && NoiseAtMost(c, s, s')
    ensures Good(c, s')
  {
    hide Good, IsNoise;
    if s' != s {
      var q :| IsNoise(c, s.snd, q) && s' == WithNoise(s, q);
      NoiseKeepsGood(c, s, q);
    }
  }

  lemma PostIsNoise(c: Config, w: World, w': World, j: nat, out: seq<Octets>, fate: Fate)
    requires CanCarry(out, fate) && (out != [] ==> Encoded(out[0]) && IsNoise(c, w.snd, out[0]))
    requires w.peer.Some? && w.peer.value < |w.children| <= |w'.children|
    requires w'.snd == w.snd && w'.children[w.peer.value].srv == w.children[w.peer.value].srv
    requires w'.toChildren == w.toChildren && w'.toClient == Post(w.toClient, j, out, fate)
    ensures NoiseAtMost(c, View(w, w.peer.value), View(w', w.peer.value))
  {
    hide EncodePdu, ChecksumOk, AllAcknowledged;
    PostViews(w.toClient, j, out, fate);
    if out != [] && Arrives(fate, out[0]).Some? {
      var q := Arrives(fate, out[0]).value;
      OnlyOriginalUsable(out[0], fate);
      assert IsNoise(c, w.snd, q);
      assert View(w', w.peer.value) == WithNoise(View(w, w.peer.value), q);
    }
  }

  lemma IdleView(c: Config, w: World, j: nat, i: ServerInput, fate: Fate)
    requires c.Ok() && Sound(c, w) && CanTake(c, w, ChildTurn(j, i, fate)) && Some(j) != w.peer && w.peer.Some?
    ensures NoiseAtMost(c, View(w, w.peer.value), View(AfterChild(w, j, i, fate), w.peer.value))
  {
    hide ServerStep, SenderOk, Flushed, Between, WriteAt, FromClient, FromServer, ChecksumOk, Idle, Post, Good, MailOk;
    IdleStep(c, w, j, i);
    PostIsNoise(c, w, AfterChild(w, j, i, fate), j, ServerStep(w.children[j].srv, i).out, fate);
  }

  // ---------------------------------------------------------------- the parent's turn

  /** The new child and its answer. */
  lemma ForkedChild(c: Config, w: World, i: ServerInput)
    requires c.Ok() && Sound(c, w) && i.Packet? && i.p in w.toParent && IsRequest(i.p)
    ensures var r := ListenStep(INITIAL_SERVER, i);
            && r.next.phase == (if i.opens then RECEIVING else FINISHED) && Idle(c, w.snd, Child(r.next, 0))
            && (Agreed(c, r.next) <==> i.opens)
            && |r.out| == 1 && Encoded(r.out[0]) && FromServer(c, w.snd, r.next, r.out[0])
            && Carries(r.out[0], FLAG_FILENAME_RESPONSE) && |r.out[0]| == HEADER_LEN + 1
            && r.out[0][7] == (if i.opens then 0 else 1)
            && (i.opens ==> IsConsent(r.out[0]))
  {
    hide EncodePdu, FilenamePayload, ParseFilename, ChecksumOk, Good, SenderOk;
    assert FromClient(c, w.snd, i.p);
    FilenameRoundTrip(i.p, c.windowSize, c.bufferSize, c.toFile, i.stale);
    EncodedPdu(0, FLAG_FILENAME_RESPONSE, [0]);
    EncodedPdu(0, FLAG_FILENAME_RESPONSE, [1]);
    var answer := ListenStep(INITIAL_SERVER, i).out[0];
    assert answer[HEADER_LEN] == Payload(answer)[0];
  }

  lemma ParentView(c: Config, w: World, i: ServerInput, fate: Fate)
    requires c.Ok() && Sound(c, w) && i.Packet? && i.p in w.toParent && IsRequest(i.p)
    requires CanCarry(ListenStep(INITIAL_SERVER, i).out, fate) && w.peer.Some?
    ensures NoiseAtMost(c, View(w, w.peer.value), View(AfterParent(w, i, fate), w.peer.value))
  {
    hide ListenStep, SenderOk, FromClient, FromServer, ChecksumOk, Idle, Post, Good, MailOk;
    ForkedChild(c, w, i);
    PostIsNoise(c, w, AfterParent(w, i, fate), |w.children|, ListenStep(INITIAL_SERVER, i).out, fate);
  }

  lemma ParentKeepsSound(c: Config, w: World, t: Turn)
    requires c.Ok() && Sound(c, w) && CanTake(c, w, t) && t.ParentTurn?
    ensures Sound(c, Take(c, w, t))
  {
    hide ListenStep, SenderOk, FromClient, FromServer, Usable, Idle, Post, Good;
    var i, w' := FirstInput(t), Take(c, w, t);
    if IsRequest(t.p) {
      ForkedChild(c, w, i);
      var out := ListenStep(INITIAL_SERVER, i).out;
      ArrivalIsGenuine(c, w.snd, out[0], t.fate);
      forall m | m in w'.toClient
        ensures && m.child < |w'.children| && FromServer(c, w'.snd, w'.children[m.child].srv, m.p)
                && (Some(m.child) != w'.peer ==> !IsReply(m.p))
      {
        PostedBy(w.toClient, |w.children|, out, t.fate, m);
      }
      if w.peer.Some? {
        ParentView(c, w, i, t.fate);
        NoiseKeepsSound(c, View(w, w.peer.value), View(w', w.peer.value));
      }
    }
  }

  // ---------------------------------------------------------------- every reachable world

  lemma TakeKeepsSound(c: Config, w: World, t: Turn)
    requires c.Ok() && Sound(c, w) && CanTake(c, w, t)
    ensures Sound(c, Take(c, w, t))
  {
    hide Sound, AfterClient, AfterParent, AfterChild;
    match t
    case ClientTurn(i, from, fate) =>
      if w.peer.Some? {
        ClientKeepsSoundWithPeer(c, w, i, from, fate);
      } else {
        ClientKeepsSoundInHandshake(c, w, i, from, fate);
      }
    case ParentTurn(_, _, _, _) => ParentKeepsSound(c, w, t);
    case ChildTurn(j, i, fate) =>
      if w.peer == Some(j) {
        PeerKeepsSound(c, w, j, i, fate);
      } else {
        IdleKeepsSound(c, w, j, i, fate);
      }
  }

  /** In every world that can be reached, with however many children: client and peer meet the
      invariants of a transfer between two, every other child has been sent no data and has
      written nothing, and the client sends its data to its peer only. */
  lemma {:induction false} GoKeepsSound(c: Config, w: World, turns: seq<Turn>)
    requires c.Ok() && Sound(c, w) && Go(c, w, turns).Some?
    ensures Sound(c, Go(c, w, turns).value)
    decreases turns
  {
    hide Sound, CanTake, Take;
    if turns != [] {
      TakeKeepsSound(c, w, turns[0]);
      GoKeepsSound(c, Take(c, w, turns[0]), turns[1..]);
    }
  }
}

/** What a transfer can still recover from when the whole server host is taken into account:
    every request that reaches the parent starts a new child. */
module Serving {
  import opened Bytes
  import opened Checksum
  import opened Pdu
  import opened Channel
  import opened SenderSpec
  import opened ServerSpec
  import opened Transfer
  import opened Progress
  import opened Recovery
  import opened Completion
  import opened Forking

  // ---------------------------------------------------------------- the condition

  /** Before the client has a peer: a request is at the parent, or the client will send one more.
      With a peer: what holds for the transfer between the two. */
  predicate CanComplete(c: Config, w: World) {
    match w.peer
    case None =>
      && InHandshake(w.snd)
      && (RequestAtParent(w) || w.snd.mode == SEND_FILENAME || w.snd.filenameTries < MAX_TRIES - 1)
    case Some(j) => j < |w.children| && Completable(c, View(w, j))
  }

  // ---------------------------------------------------------------- what is lost stays lost

  lemma HopelessWithPeer(c: Config, w: World, t: Turn)
    requires c.Ok() && Sound(c, w) && CanTake(c, w, t) && w.peer.Some? && !CanComplete(c, w)
    ensures !CanComplete(c, Take(c, w, t))
  {
    hide Good, Completable, InHandshake, SenderStep, ServerStep, ListenStep, MailOk, Idle, SenderOk;
    hide Flushed, WriteAt, Post, Enabled, Next, NoiseAtMost, IsRequest;
    var j := w.peer.value;
    var s := View(w, j);
    match t
    case ClientTurn(i, from, fate) =>
      ClientView(c, w, i, from, fate);
      HopelessForever(c, s, Client(i, FateForPeer(w, i, from, fate)));
    case ParentTurn(_, _, _, fate) =>
      if IsRequest(t.p) {
        ParentView(c, w, FirstInput(t), fate);
        NoiseStaysHopeless(c, s, View(Take(c, w, t), j));
      }
    case ChildTurn(k, i, fate) =>
      if k == j {
        PeerView(c, w, j, i, fate);
        HopelessForever(c, s, Host(i, fate));
      } else {
        IdleView(c, w, k, i, fate);
        NoiseStaysHopeless(c, s, View(Take(c, w, t), j));
      }
  }

  lemma NoiseStaysHopeless(c: Config, s: Sys, s': Sys)
    requires NoiseAtMost(c, s, s') && !InHandshake(s.snd) && !Completable(c, s)
    ensures !Completable(c, s')
  {
    hide Completable, IsNoise;
    if s' != s {
      var q :| IsNoise(c, s.snd, q) && s' == WithNoise(s, q);
      NoiseChangesNothing(c, s, q);
    }
  }

  /** All ten requests were lost, or the client has given up: there is nobody to hear from. */
  lemma HopelessInHandshake(c: Config, w: World, t: Turn)
    requires c.Ok() && Sound(c, w) && CanTake(c, w, t) && w.peer.None? && !CanComplete(c, w)
    ensures !CanComplete(c, Take(c, w, t))
  {
    hide Good, Usable, EncodePdu, FilenamePayload, SenderOk, FromClient, FromServer, Idle;
  }

  lemma HopelessTurn(c: Config, w: World, t: Turn)
    requires c.Ok() && Sound(c, w) && CanTake(c, w, t) && !CanComplete(c, w)
    ensures !CanComplete(c, Take(c, w, t))
  {
    hide Sound, CanTake, Take, CanComplete;
    if w.peer.Some? {
      HopelessWithPeer(c, w, t);
    } else {
      HopelessInHandshake(c, w, t);
    }
  }

  lemma {:induction false} HopelessGo(c: Config, w: World, turns: seq<Turn>)
    requires c.Ok() && Sound(c, w) && Go(c, w, turns).Some? && !CanComplete(c, w)
    ensures !CanComplete(c, Go(c, w, turns).value)
    decreases turns
  {
    hide Sound, CanTake, Take, CanComplete;
    if turns != [] {
      HopelessTurn(c, w, turns[0]);
      TakeKeepsSound(c, w, turns[0]);
      HopelessGo(c, Take(c, w, turns[0]), turns[1..]);
    }
  }

  // ---------------------------------------------------------------- a transfer between two, in the world

  /** The parent is given nothing. */
  predicate NoFork(turns: seq<Turn>) {
    forall t :: t in turns ==> !t.ParentTurn?
  }

  /** Turns without a fork lead from one world to the other. */
  ghost predicate Passes(c: Config, w: World, turns: seq<Turn>, u: World) {
    Go(c, w, turns) == Some(u) && NoFork(turns) && u.cut == w.cut
  }

  lemma PassesHere(c: Config, w: World)
    ensures Passes(c, w, [], w)
  {
  }

  lemma PassesOn(c: Config, w: World, t: Turn, turns: seq<Turn>, u: World)
    requires CanTake(c, w, t) && !t.ParentTurn? && Passes(c, Take(c, w, t), turns, u)
    ensures Passes(c, w, [t] + turns, u)
  {
    hide CanTake;
    assert ([t] + turns)[1..] == turns;
  }

  /** Until everything is acknowledged, a step of the transfer between client and peer is a turn. */
  lemma StepAsTurn(c: Config, w: World, e: Event) returns (t: Turn)
    requires c.Ok() && Sound(c, w) && w.peer.Some? && !AllAcknowledged(c, w.snd)
    requires Enabled(c, View(w, w.peer.value), e)
    ensures CanTake(c, w, t) && !t.ParentTurn? && Take(c, w, t).peer == w.peer
    ensures View(Take(c, w, t), w.peer.value) == Next(c, View(w, w.peer.value), e)
  {
    hide Good, SenderStep, ServerStep, MailOk, Idle, Flushed, WriteAt, Post;
    var j := w.peer.value;
    match e
    case Client(i, fate) =>
      var from: nat := 0;
      if i.Arrived? {
        var m :| m in w.toClient && m.p == i.p;
        from := m.child;
      }
      t := ClientTurn(i, from, fate);
      ClientView(c, w, i, from, fate);
      DoneSendsNothing(c, w.snd, i);
    case Host(i, fate) =>
      t := ChildTurn(j, i, fate);
      assert i.Packet? ==> Mail(j, i.p) in w.toChildren;
      PeerView(c, w, j, i, fate);
  }

  lemma DoneSendsNothing(c: Config, snd: Sender, i: SenderSpec.Input)
    ensures snd.mode == DONE ==> SenderStep(c, snd, i) == Step(snd, [])
  {
  }

  /** A run of the transfer between two that gets everything acknowledged is one of the world. */
  lemma {:induction false} Lift(c: Config, w: World, events: seq<Event>) returns (turns: seq<Turn>, u: World)
    requires c.Ok() && Sound(c, w) && w.peer.Some?
    requires var t := Continue(c, View(w, w.peer.value), events);
             t.Some? && AllAcknowledged(c, t.value.snd)
    ensures Passes(c, w, turns, u) && AllAcknowledged(c, u.snd) && u.peer == w.peer
    decreases events
  {
    hide Sound, CanTake, Take, Enabled, Next, Passes, AllAcknowledged;
    if AllAcknowledged(c, w.snd) {
      PassesHere(c, w);
      turns, u := [], w;
    } else {
      PeerIsChild(c, w);
      var t := StepAsTurn(c, w, events[0]);
      TakeKeepsSound(c, w, t);
      var rest;
      rest, u := Lift(c, Take(c, w, t), events[1..]);
      PassesOn(c, w, t, rest, u);
      turns := [t] + rest;
    }
  }

  lemma PeerIsChild(c: Config, w: World)
    requires Sound(c, w) && w.peer.Some?
    ensures w.peer.value < |w.children|
  {
    hide Good, MailOk, SenderOk, Idle;
  }

  // ---------------------------------------------------------------- the handshake, in the world

  const WAITS := ClientTurn(Quiet, 0, Passed)

  /** The client asks: the parent, as long as nobody has answered. */
  lemma Ask(c: Config, w: World) returns (u: World)
    requires c.Ok() && Sound(c, w) && w.peer.None? && w.snd.mode == SEND_FILENAME
    ensures CanTake(c, w, WAITS) && u == Take(c, w, WAITS) && Sound(c, u)
    ensures u.snd == w.snd.(mode := WAIT_FILENAME_ACK, controlSeqNum := Increment(w.snd.controlSeqNum))
    ensures u == w.(snd := u.snd, toParent := u.toParent, toChildren := u.toChildren)
    ensures var request := Request(c, w.snd);
            && IsRequest(request) && SequenceNum(request) == w.snd.controlSeqNum
            && u.toParent == w.toParent + if w.addr.None? then {request} else {}
  {
    hide ChecksumOk, EncodePdu, FilenamePayload, Sound;
    var payload := FilenamePayload(c.windowSize, c.bufferSize, c.toFile);
    EncodedPdu(w.snd.controlSeqNum, FLAG_FILENAME, payload);
    assert SenderStep(c, w.snd, Quiet) == SendFilenameStep(c, w.snd);
    u := Take(c, w, WAITS);
    TakeKeepsSound(c, w, WAITS);
  }

  /** What the client sends in SEND_FILENAME. */
  function Request(c: Config, snd: Sender): Octets {
    EncodePdu(Little, snd.controlSeqNum, FLAG_FILENAME, FilenamePayload(c.windowSize, c.bufferSize, c.toFile))
  }

  /** The client's poll times out before its last try. */
  lemma TryAgain(c: Config, w: World) returns (u: World)
    requires c.Ok() && Sound(c, w) && w.peer.None?
    requires w.snd.mode == WAIT_FILENAME_ACK && w.snd.filenameTries < MAX_TRIES - 1
    ensures CanTake(c, w, WAITS) && u == Take(c, w, WAITS) && Sound(c, u)
    ensures u == w.(snd := w.snd.(mode := SEND_FILENAME, filenameTries := w.snd.filenameTries + 1))
  {
    hide Usable, EncodePdu, FilenamePayload, Sound;
    assert SenderStep(c, w.snd, Quiet) == WaitFilenameAckStep(w.snd, Quiet);
    u := Take(c, w, WAITS);
    TakeKeepsSound(c, w, WAITS);
  }

  function Forks(p: Octets): Turn {
    ParentTurn(p, [], true, Passed)
  }

  /** The parent takes a request: a new child truncates the file and consents. */
  lemma Fork(c: Config, w: World, p: Octets) returns (u: World, answer: Octets)
    requires c.Ok() && Sound(c, w) && p in w.toParent && IsRequest(p)
    ensures CanTake(c, w, Forks(p)) && u == Take(c, w, Forks(p)) && Sound(c, u)
    ensures |u.children| == |w.children| + 1 && u.children[|w.children|].srv.phase == RECEIVING
    ensures Mail(|w.children|, answer) in u.toClient && IsConsent(answer)
    ensures u == w.(children := u.children, toClient := u.toClient, disk := [], cut := PeerOffset(w))
  {
    hide ChecksumOk, EncodePdu, FilenamePayload, Sound, ListenStep;
    ForkedChild(c, w, FirstInput(Forks(p)));
    answer := ListenStep(INITIAL_SERVER, FirstInput(Forks(p))).out[0];
    u := Take(c, w, Forks(p));
    TakeKeepsSound(c, w, Forks(p));
  }

  /** The client takes the consent of a child that is still receiving. */
  lemma Accept(c: Config, w: World, j: nat, answer: Octets) returns (turns: seq<Turn>, u: World)
    requires c.Ok() && Sound(c, w) && w.peer.None? && InHandshake(w.snd)
    requires Mail(j, answer) in w.toClient && IsConsent(answer)
    requires j < |w.children| && w.children[j].srv.phase == RECEIVING
    ensures Passes(c, w, turns, u) && Sound(c, u) && u.peer == Some(j) && CanComplete(c, u)
  {
    hide Sound, CanTake, Take, Passes, CanComplete;
    if w.snd.mode == SEND_FILENAME {
      var v := Ask(c, w);
      var t;
      t, u := TakeAnswerOf(c, v, j, answer);
      PassesHere(c, u);
      PassesOn(c, v, t, [], u);
      PassesOn(c, w, WAITS, [t] + [], u);
      turns := [WAITS] + ([t] + []);
    } else {
      var t;
      t, u := TakeAnswerOf(c, w, j, answer);
      PassesHere(c, u);
      PassesOn(c, w, t, [], u);
      turns := [t] + [];
    }
  }

  lemma TakeAnswerOf(c: Config, w: World, j: nat, answer: Octets) returns (t: Turn, u: World)
    requires c.Ok() && Sound(c, w) && w.peer.None? && w.snd.mode == WAIT_FILENAME_ACK
    requires Mail(j, answer) in w.toClient && IsConsent(answer)
    requires j < |w.children| && w.children[j].srv.phase == RECEIVING
    ensures CanTake(c, w, t) && !t.ParentTurn? && u == Take(c, w, t)
    ensures Sound(c, u) && u.peer == Some(j) && CanComplete(c, u) && u.cut == w.cut
  {
    hide EncodePdu, FilenamePayload, ChecksumOk, MailOk, Good, AnswerOnWire, DataOnWire;
    t := ClientTurn(Arrived(answer), j, Passed);
    assert SenderStep(c, w.snd, Arrived(answer)) == WaitFilenameAckStep(w.snd, Arrived(answer));
    u := Take(c, w, t);
    TakeKeepsSound(c, w, t);
  }

  /** A request at the parent: a child is forked, and the client takes its consent. */
  lemma ForkAndAccept(c: Config, w: World, p: Octets) returns (turns: seq<Turn>, u: World)
    requires c.Ok() && Sound(c, w) && w.peer.None? && InHandshake(w.snd) && p in w.toParent && IsRequest(p)
    ensures Go(c, w, [Forks(p)] + turns) == Some(u) && NoFork(turns)
    ensures Sound(c, u) && u.peer.Some? && CanComplete(c, u) && u.cut == 0
  {
    hide Sound, CanTake, Take, CanComplete;
    var v, answer := Fork(c, w, p);
    turns, u := Accept(c, v, |w.children|, answer);
    assert ([Forks(p)] + turns)[1..] == turns;
  }

  /** Before there is a peer, a request is got to the parent first. */
  lemma Connects(c: Config, w: World) returns (turns: seq<Turn>, u: World)
    requires c.Ok() && Sound(c, w) && w.peer.None? && CanComplete(c, w)
    ensures Go(c, w, turns) == Some(u) && Sound(c, u) && u.peer.Some? && CanComplete(c, u) && u.cut == 0
    decreases w.snd.mode == WAIT_FILENAME_ACK
  {
    hide Sound, CanTake, Take;
    if RequestAtParent(w) {
      var p :| p in w.toParent && IsRequest(p);
      var rest;
      rest, u := ForkAndAccept(c, w, p);
      turns := [Forks(p)] + rest;
    } else if w.snd.mode == SEND_FILENAME {
      NobodyAnswered(c, w);
      var v := Ask(c, w);
      var rest;
      rest, u := ForkAndAccept(c, v, Request(c, w.snd));
      turns := [WAITS] + ([Forks(Request(c, w.snd))] + rest);
      assert turns[1..] == [Forks(Request(c, w.snd))] + rest;
    } else {
      var v := TryAgain(c, w);
      var rest;
      rest, u := Connects(c, v);
      turns := [WAITS] + rest;
      assert turns[1..] == rest;
    }
  }

  lemma NobodyAnswered(c: Config, w: World)
    requires Sound(c, w) && !RequestAtParent(w)
    ensures w.addr.None?
  {
    hide Good, MailOk, SenderOk, Idle;
  }

  /** Once the client has had any packet from a child, even a corrupted one, it asks the parent
      no more: whatever happens, no further request gets there. */
  lemma {:induction false} NoMoreRequests(c: Config, w: World, turns: seq<Turn>)
    requires Go(c, w, turns).Some? && w.addr.Some?
    ensures var u := Go(c, w, turns).value;
            u.addr.Some? && u.toParent == w.toParent
    decreases turns
  {
    hide SenderStep, ServerStep, ListenStep, IsRequest, WriteAt, Flushed;
    if turns != [] {
      NoMoreRequests(c, Take(c, w, turns[0]), turns[1..]);
    }
  }

  /** Any packet will do, however damaged: after it every request goes to that child. */
  lemma AnyPacketDeflects(c: Config, w: World, j: nat, p: Octets, fate: Fate, turns: seq<Turn>)
    requires w.snd.mode == WAIT_FILENAME_ACK && Go(c, w, [ClientTurn(Arrived(p), j, fate)] + turns).Some?
    ensures Go(c, w, [ClientTurn(Arrived(p), j, fate)] + turns).value.toParent == w.toParent
  {
    hide Usable, EncodePdu, FilenamePayload;
    var t := ClientTurn(Arrived(p), j, fate);
    assert ([t] + turns)[1..] == turns && ([t] + turns)[0] == t;
    assert SenderStep(c, w.snd, Arrived(p)) == WaitFilenameAckStep(w.snd, Arrived(p));
    NoMoreRequests(c, Take(c, w, t), turns);
  }

  /** Nor is it only the handshake: the next EOF goes to the child whose packet came last. */
  lemma EofGoesToLastSender(c: Config, w: World, j: nat, p: Octets)
    requires Mail(j, p) in w.toClient && w.snd.mode == WAIT_EOF_ACK && !Usable(p) && w.snd.eofTries < 9
    ensures var hears := ClientTurn(Arrived(p), j, Passed);
            && CanTake(c, w, hears) && CanTake(c, Take(c, w, hears), WAITS)
            && var u := Take(c, Take(c, w, hears), WAITS);
               && u.toParent == w.toParent
               && u.toChildren == w.toChildren + {Mail(j, EncodePdu(Little, w.snd.controlSeqNum, FLAG_EOF, []))}
  {
    hide EncodePdu, FilenamePayload, ChecksumOk;
    assert SenderStep(c, w.snd, Arrived(p)) == WaitEofAckStep(w.snd, Arrived(p));
    var u := Take(c, w, ClientTurn(Arrived(p), j, Passed));
    assert SenderStep(c, u.snd, Quiet) == SendEofStep(u.snd);
  }

  // ---------------------------------------------------------------- a server that cannot open the file

  /** A client that is done sends nothing more, whoever is still running. */
  lemma {:induction false} DoneInWorld(c: Config, w: World, turns: seq<Turn>)
    requires Go(c, w, turns).Some? && w.snd.mode == DONE
    ensures var u := Go(c, w, turns).value;
            u.snd == w.snd && u.peer == w.peer && u.toParent == w.toParent && u.toChildren == w.toChildren
    decreases turns
  {
    hide ServerStep, ListenStep, IsRequest, WriteAt, Flushed, EncodePdu, FilenamePayload, Usable;
    if turns != [] {
      DoneSendsNothing(c, w.snd, if turns[0].ClientTurn? then turns[0].input else Quiet);
      DoneInWorld(c, Take(c, w, turns[0]), turns[1..]);
    }
  }

  /** The child was forked and could not open the output file. */
  ghost predicate CouldNotOpen(c: Config, w: World, j: nat) {
    j < |w.children| && Some(j) != w.peer && !Agreed(c, w.children[j].srv)
  }

  lemma StillCouldNotOpen(c: Config, w: World, t: Turn, j: nat)
    requires c.Ok() && Sound(c, w) && CanTake(c, w, t) && CouldNotOpen(c, w, j)
    ensures CouldNotOpen(c, Take(c, w, t), j)
  {
    hide ServerStep, ListenStep, IsRequest, WriteAt, Flushed, Good, MailOk, SenderOk, Encoded, FromServer, Usable;
    match t
    case ClientTurn(i, from, fate) =>
      if w.peer.None? && Take(c, w, t).peer.Some? {
        ConsentIsTaken(c, w.snd, i);
        ConsentingIsGood(c, w, from, i.p);
      }
    case ParentTurn(_, _, _, _) =>
    case ChildTurn(k, i, fate) =>
      if k == j {
        IdleStep(c, w, j, i);
      }
  }

  lemma ConsentIsTaken(c: Config, snd: Sender, i: SenderSpec.Input)
    requires snd.mode == WAIT_FILENAME_ACK && SenderStep(c, snd, i).next.mode == SEND_DATA
    ensures i.Arrived? && IsConsent(i.p)
  {
    hide Usable, EncodePdu, FilenamePayload;
  }

  lemma {:induction false} NeverOpens(c: Config, w: World, turns: seq<Turn>, j: nat)
    requires c.Ok() && Sound(c, w) && Go(c, w, turns).Some? && CouldNotOpen(c, w, j)
    ensures CouldNotOpen(c, Go(c, w, turns).value, j)
    decreases turns
  {
    hide Sound, CanTake, Take, CouldNotOpen;
    if turns != [] {
      StillCouldNotOpen(c, w, turns[0], j);
      TakeKeepsSound(c, w, turns[0]);
      NeverOpens(c, Take(c, w, turns[0]), turns[1..], j);
    }
  }

  /** A request whose child cannot open the file leads to that state. */
  lemma ForkWithoutFile(c: Config, w: World, t: Turn)
    requires c.Ok() && Sound(c, w) && CanTake(c, w, t) && t.ParentTurn? && IsRequest(t.p) && !t.opens
    ensures var u := Take(c, w, t);
            CouldNotOpen(c, u, |w.children|) && u.disk == w.disk && u.cut == w.cut
  {
    hide ListenStep, Good, MailOk, SenderOk, Idle, Encoded, FromServer, IsConsent;
    ForkedChild(c, w, FirstInput(t));
  }

  /** If the answer that a waiting client takes comes from a child that could not open the file,
      the client is done: whatever happens then, it sends nothing more, and no data was ever
      sent to anybody. */
  lemma RefusedByChild(c: Config, w: World, j: nat, p: Octets, fate: Fate, turns: seq<Turn>)
    requires c.Ok() && Sound(c, w) && w.snd.mode == WAIT_FILENAME_ACK && CouldNotOpen(c, w, j)
    requires Carries(p, FLAG_FILENAME_RESPONSE)
    requires Go(c, w, [ClientTurn(Arrived(p), j, fate)] + turns).Some?
    ensures var u := Go(c, w, [ClientTurn(Arrived(p), j, fate)] + turns).value;
            && u.snd.mode == DONE && u.peer.None? && u.snd.win.current == 0
            && u.toParent == w.toParent && u.toChildren == w.toChildren
            && forall m :: m in u.toChildren ==> !Carries(m.p, FLAG_DATA)
  {
    hide Good, Idle, EncodePdu, FilenamePayload, ChecksumOk;
    var t := ClientTurn(Arrived(p), j, fate);
    assert ([t] + turns)[1..] == turns && ([t] + turns)[0] == t;
    assert FromServer(c, w.snd, w.children[j].srv, p);
    assert SenderStep(c, w.snd, Arrived(p)) == WaitFilenameAckStep(w.snd, Arrived(p));
    DoneInWorld(c, Take(c, w, t), turns);
  }

  /** The FINAL_ACK goes to the child whose EOF_ACK was taken, peer or not. */
  lemma FinalAckGoesBack(c: Config, w: World, j: nat, p: Octets)
    requires w.snd.mode == WAIT_EOF_ACK && Mail(j, p) in w.toClient && Carries(p, FLAG_EOF_ACK)
    ensures var t := ClientTurn(Arrived(p), j, Passed);
            && CanTake(c, w, t)
            && var u := Take(c, w, t);
               && u.snd.mode == DONE && u.toParent == w.toParent
               && u.toChildren == w.toChildren + {Mail(j, EncodePdu(Little, w.snd.controlSeqNum, FLAG_FINAL_ACK, []))}
  {
    hide EncodePdu, FilenamePayload, ChecksumOk;
    assert SenderStep(c, w.snd, Arrived(p)) == WaitEofAckStep(w.snd, Arrived(p));
  }

  // ---------------------------------------------------------------- exactly these worlds

  /** From a world with a peer that can complete, turns without a fork get everything across. */
  lemma PeerCompletes(c: Config, w: World) returns (turns: seq<Turn>, u: World)
    requires c.Ok() && Sound(c, w) && w.peer.Some? && CanComplete(c, w)
    ensures Passes(c, w, turns, u) && Sound(c, u) && AllAcknowledged(c, u.snd) && u.peer == w.peer
  {
    hide Sound, Passes, Completable, AllAcknowledged;
    PeerIsGood(c, w);
    var s := View(w, w.peer.value);
    var t := CompletableCompletes(c, s);
    var events :| Continue(c, s, events) == Some(t);
    turns, u := Lift(c, w, events);
    PassesKeepsSound(c, w, turns, u);
  }

  lemma PeerIsGood(c: Config, w: World)
    requires Sound(c, w) && w.peer.Some?
    ensures w.peer.value < |w.children| && Good(c, View(w, w.peer.value))
  {
    hide Good, MailOk, SenderOk, Idle;
  }

  lemma PassesKeepsSound(c: Config, w: World, turns: seq<Turn>, u: World)
    requires c.Ok() && Sound(c, w) && Passes(c, w, turns, u)
    ensures Sound(c, u)
  {
    hide Sound, Go;
    GoKeepsSound(c, w, turns);
  }

  /** From every world that can complete there are turns that get everything across. */
  lemma CanCompleteCompletes(c: Config, w: World) returns (turns: seq<Turn>, u: World)
    requires c.Ok() && Sound(c, w) && CanComplete(c, w)
    ensures Go(c, w, turns) == Some(u) && Sound(c, u) && AllAcknowledged(c, u.snd) && u.peer.Some?
    ensures u.cut == if w.peer.Some? then w.cut else 0
  {
    hide Sound, CanComplete, Go;
    if w.peer.Some? {
      turns, u := PeerCompletes(c, w);
    } else {
      var first, v := Connects(c, w);
      var rest;
      rest, u := PeerCompletes(c, v);
      GoAppend(c, w, first, rest);
      turns := first + rest;
    }
  }

  lemma AcknowledgedCanComplete(c: Config, w: World)
    requires Sound(c, w) && AllAcknowledged(c, w.snd)
    ensures w.peer.Some? && CanComplete(c, w)
  {
    hide Good, MailOk, SenderOk, Idle, LastLost, RejectLost, AnswerOnWire;
  }

  /** The exact condition for the whole host: from every reachable world, in the handshake or
      after it, with however many children, some continuation has the whole file acknowledged if
      and only if the world can complete. */
  lemma CanCompleteExactly(c: Config, disk: Octets, turns: seq<Turn>)
    requires c.Ok() && Go(c, InitialWorld(c, disk), turns).Some?
    ensures var w := Go(c, InitialWorld(c, disk), turns).value;
            (exists more :: Go(c, w, more).Some? && AllAcknowledged(c, Go(c, w, more).value.snd)) <==> CanComplete(c, w)
  {
    hide Sound, CanComplete, Go, AllAcknowledged;
    InitialSound(c, disk);
    GoKeepsSound(c, InitialWorld(c, disk), turns);
    var w := Go(c, InitialWorld(c, disk), turns).value;
    if CanComplete(c, w) {
      var more, u := CanCompleteCompletes(c, w);
    }
    forall more | Go(c, w, more).Some? && AllAcknowledged(c, Go(c, w, more).value.snd) ensures CanComplete(c, w) {
      GoKeepsSound(c, w, more);
      AcknowledgedCanComplete(c, Go(c, w, more).value);
      if !CanComplete(c, w) {
        HopelessGo(c, w, more);
      }
    }
  }
}

/** The output file: what the peer has written, unless another child has truncated it. */
module Disk {
  import opened Bytes
  import opened Pdu
  import opened ReceiverSpec
  import opened SenderSpec
  import opened ServerSpec
  import opened Transfer
  import opened Safety
  import opened Recovery
  import opened Forking
  import opened Serving

  // ---------------------------------------------------------------- writing after a truncation

  /** A file truncated when `cut` bytes of `written` had been written through an open descriptor. */
  function OnDisk(written: Octets, cut: nat): Octets
    requires cut <= |written|
  {
    if cut == |written| then [] else Zeros(cut) + written[cut..]
  }

  lemma WriteExtends(written: Octets, cut: nat, data: Octets)
    requires cut <= |written|
    ensures WriteAt(OnDisk(written, cut), |written|, data) == OnDisk(written + data, cut)
  {
    hide Zeros, WriteAt, OnDisk;
    if data == [] {
      assert written + data == written;
      WriteAtEnd(OnDisk(written, cut), data);
    } else if cut == |written| {
      WriteBehindEnd(written, data);
    } else {
      OnDiskAppend(written, cut, data);
      WriteAtEnd(OnDisk(written, cut), data);
    }
  }

  /** What `write` at an offset does, byte by byte: the data go there, a gap before them becomes
      zero, and everything else stays. */
  lemma WriteAtBytes(disk: Octets, offset: nat, data: Octets, i: nat)
    ensures var d := WriteAt(disk, offset, data);
            && (data == [] ==> d == disk)
            && (data != [] ==> |d| == if |disk| > offset + |data| then |disk| else offset + |data|)
            && (i < |d| ==> d[i] == if offset <= i < offset + |data| then data[i - offset]
                                    else if i < |disk| then disk[i] else 0)
  {
  }

  lemma WriteAtEnd(disk: Octets, data: Octets)
    ensures WriteAt(disk, |disk|, data) == disk + data
    ensures data == [] ==> forall offset: nat :: WriteAt(disk, offset, data) == disk
  {
    assert disk[..|disk|] == disk;
  }

  lemma WriteBehindEnd(written: Octets, data: Octets)
    requires data != []
    ensures WriteAt(OnDisk(written, |written|), |written|, data) == OnDisk(written + data, |written|)
  {
    hide Zeros;
    var n := |written|;
    assert (written + data)[n..] == data;
    assert WriteAt([], n, data) == Zeros(n) + data by {
      if n == 0 {
        assert Zeros(n) == [];
      }
    }
  }

  lemma OnDiskAppend(written: Octets, cut: nat, data: Octets)
    requires cut < |written|
    ensures OnDisk(written + data, cut) == OnDisk(written, cut) + data
    ensures |OnDisk(written, cut)| == |written|
  {
    hide Zeros;
    var z, rest := Zeros(cut), written[cut..];
    assert (written + data)[cut..] == rest + data;
    Associative(z, rest, data);
  }

  lemma Associative(a: Octets, b: Octets, c: Octets)
    ensures (a + b) + c == a + (b + c)
  {
  }

  /** Exactly when what is on the disk is what was written. */
  lemma OnDiskIsWritten(written: Octets, cut: nat)
    requires cut <= |written|
    ensures OnDisk(written, cut) == written <==> cut == 0 || (cut < |written| && written[..cut] == Zeros(cut))
  {
    var disk := OnDisk(written, cut);
    if cut < |written| {
      assert disk[..cut] == Zeros(cut) && disk[cut..] == written[cut..];
      assert written == written[..cut] + written[cut..];
    }
  }

  lemma {:induction false} BetweenExtends(got: map<nat, Octets>, m: nat, n: nat)
    requires m <= n && forall k: nat :: k < n ==> k in got
    ensures Output(got, n) == Output(got, m) + Between(got, m, n)
    decreases n
  {
    if m < n {
      BetweenExtends(got, m, n - 1);
    }
  }

  /** The receiver's output grows by what the flush writes. */
  lemma FlushedIsAppended(v: RecvView, seqNum: nat, payload: Octets)
    requires v.Ok()
    ensures var v' := Receive(v, seqNum, payload);
            v'.Ok() && Output(v'.got, v'.expected) == Output(v.got, v.expected) + Flushed(v, seqNum, payload)
  {
    ReceiveKeepsOk(v, seqNum, payload);
    if seqNum >= v.expected {
      var v' := Receive(v, seqNum, payload);
      BetweenExtends(v'.got, v.expected, v'.expected);
      OutputDependsOnPrefix(v.got, v'.got, v.expected);
    }
  }

  // ---------------------------------------------------------------- the invariant

  ghost predicate DiskOk(c: Config, w: World) {
    && (w.cut > 0 ==> |w.children| >= 2)
    && match w.peer
       case None => w.cut == 0 && forall child :: child in w.children && Agreed(c, child.srv) ==> w.disk == []
       case Some(j) =>
         && j < |w.children|
         && w.children[j].srv.recv.Ok() && w.children[j].offset == |FileWritten(w.children[j].srv)|
         && w.cut <= w.children[j].offset
         && w.disk == OnDisk(FileWritten(w.children[j].srv), w.cut)
  }

  lemma ClientKeepsDisk(c: Config, w: World, t: Turn)
    requires c.Ok() && Sound(c, w) && DiskOk(c, w) && CanTake(c, w, t) && t.ClientTurn?
    ensures DiskOk(c, Take(c, w, t))
  {
    hide Usable, EncodePdu, FilenamePayload, Good, MailOk, SenderOk;
    if w.peer.None? && Take(c, w, t).peer.Some? {
      ConsentingIsGood(c, w, t.from, t.input.p);
    }
  }

  lemma ParentKeepsDisk(c: Config, w: World, t: Turn)
    requires c.Ok() && Sound(c, w) && DiskOk(c, w) && CanTake(c, w, t) && t.ParentTurn?
    ensures DiskOk(c, Take(c, w, t))
  {
    hide ListenStep, Good, MailOk, SenderOk, FileWritten, Post, IsRequest, IsConsent, Encoded, FromServer, Carries;
    if IsRequest(t.p) {
      RequestInMail(c, w, t.p);
      ForkedChild(c, w, FirstInput(t));
    }
  }

  lemma RequestInMail(c: Config, w: World, p: Octets)
    requires Sound(c, w) && p in w.toParent
    ensures FromClient(c, w.snd, p)
  {
    hide Good, SenderOk, Idle, FromClient, FromServer;
  }

  lemma ChildKeepsDisk(c: Config, w: World, t: Turn)
    requires c.Ok() && Sound(c, w) && DiskOk(c, w) && CanTake(c, w, t) && t.ChildTurn?
    ensures DiskOk(c, Take(c, w, t))
  {
    hide ServerStep, Good, MailOk, SenderOk, Post, IsRequest, Encoded, FromServer, Carries, Usable, Flushed, Receive;
    var j, i := t.child, t.request;
    var child := w.children[j];
    if w.peer == Some(j) {
      HostReceives(child.srv, i);
      if child.srv.phase == RECEIVING && IsData(i) {
        FlushedIsAppended(child.srv.recv, SequenceNum(i.p), Payload(i.p));
      }
      WriteExtends(FileWritten(child.srv), w.cut, Writes(child.srv, i));
    } else {
      IdleStep(c, w, j, i);
    }
  }

  lemma TakeKeepsDisk(c: Config, w: World, t: Turn)
    requires c.Ok() && Sound(c, w) && DiskOk(c, w) && CanTake(c, w, t)
    ensures DiskOk(c, Take(c, w, t)) && w.cut <= Take(c, w, t).cut
  {
    hide Sound, SenderStep, ServerStep, ListenStep, FileWritten, IsRequest;
    match t
    case ClientTurn(_, _, _) => ClientKeepsDisk(c, w, t);
    case ParentTurn(_, _, _, _) => ParentKeepsDisk(c, w, t);
    case ChildTurn(_, _, _) => ChildKeepsDisk(c, w, t);
  }

  lemma {:induction false} GoKeepsDisk(c: Config, w: World, turns: seq<Turn>)
    requires c.Ok() && Sound(c, w) && DiskOk(c, w) && Go(c, w, turns).Some?
    ensures var u := Go(c, w, turns).value;
            Sound(c, u) && DiskOk(c, u) && w.cut <= u.cut
    decreases turns
  {
    hide Sound, DiskOk, CanTake, Take;
    if turns != [] {
      TakeKeepsSound(c, w, turns[0]);
      TakeKeepsDisk(c, w, turns[0]);
      GoKeepsDisk(c, Take(c, w, turns[0]), turns[1..]);
    }
  }

  lemma InitialDiskOk(c: Config, disk: Octets)
    ensures DiskOk(c, InitialWorld(c, disk))
  {
  }

  // ---------------------------------------------------------------- what is on the disk

  /** The whole input file. */
  function File(c: Config): Octets {
    FileUpTo(c.chunks, |c.chunks|)
  }

  lemma PeerWrote(c: Config, w: World)
    requires c.Ok() && Sound(c, w) && DiskOk(c, w) && w.peer.Some?
    ensures w.peer.value < |w.children|
    ensures var snd, recv := w.snd.win, w.children[w.peer.value].srv.recv;
            && recv.Ok() && snd.lower <= recv.expected <= snd.current <= snd.lower + c.windowSize
            && recv.expected <= |c.chunks|
            && FileWritten(w.children[w.peer.value].srv) == FileUpTo(c.chunks, recv.expected)
            && w.cut <= |FileUpTo(c.chunks, recv.expected)|
            && w.disk == OnDisk(FileUpTo(c.chunks, recv.expected), w.cut)
  {
    hide MailOk, Idle, Traces, EncodePdu, FilenamePayload, OnDisk;
    var srv := w.children[w.peer.value].srv;
    ExpectedWasSent(c, w.snd, srv);
    OutputIsFile(srv.recv.got, c.chunks, srv.recv.expected);
  }

  /** In every reachable world with a peer: the peer has written exactly the chunks below the
      number it expects, nobody else has written anything, and the disk holds that, with zeros
      for, or without, what had been written when the file was last truncated. With a single
      child nothing is ever truncated. */
  lemma DiskAfterAnyRun(c: Config, disk: Octets, turns: seq<Turn>)
    requires c.Ok() && Go(c, InitialWorld(c, disk), turns).Some?
    ensures var w := Go(c, InitialWorld(c, disk), turns).value;
            && (w.cut > 0 ==> |w.children| >= 2)
            && (w.peer.Some? ==>
                  && w.peer.value < |w.children|
                  && var win, recv := w.snd.win, w.children[w.peer.value].srv.recv;
                  && win.lower <= recv.expected <= win.current <= win.lower + c.windowSize
                  && recv.expected <= |c.chunks| && w.cut <= |FileUpTo(c.chunks, recv.expected)|
                  && w.disk == OnDisk(FileUpTo(c.chunks, recv.expected), w.cut))
            && (forall j: nat :: j < |w.children| && Some(j) != w.peer ==> w.children[j].offset == 0)
  {
    hide Go, OnDisk, MailOk, SenderOk, Good, FileWritten;
    InitialSound(c, disk);
    InitialDiskOk(c, disk);
    GoKeepsDisk(c, InitialWorld(c, disk), turns);
    var w := Go(c, InitialWorld(c, disk), turns).value;
    if w.peer.Some? {
      PeerWrote(c, w);
    }
  }

  /** Somebody is in the end of file handshake, or one of its packets is on its way. */
  predicate EndOfFileAbout(w: World) {
    || w.snd.mode == SEND_EOF || w.snd.mode == WAIT_EOF_ACK
    || (exists child | child in w.children :: child.srv.phase.EOF_LOOP?)
    || (exists m | m in w.toChildren :: Carries(m.p, FLAG_EOF) || Carries(m.p, FLAG_FINAL_ACK))
    || (exists m | m in w.toClient :: Carries(m.p, FLAG_EOF_ACK))
  }

  lemma EndOfFileIsDue(c: Config, w: World)
    requires c.Ok() && Sound(c, w) && EndOfFileAbout(w)
    ensures AllAcknowledged(c, w.snd)
  {
    hide Usable, EncodePdu, FilenamePayload, Traces;
    if w.snd.mode == SEND_EOF || w.snd.mode == WAIT_EOF_ACK {
    } else if child :| child in w.children && child.srv.phase.EOF_LOOP? {
      var j: nat :| j < |w.children| && w.children[j] == child;
      assert w.peer == Some(j) ==> ReceiverOk(c, w.snd, View(w, j).srv);
    } else if m :| m in w.toChildren && (Carries(m.p, FLAG_EOF) || Carries(m.p, FLAG_FINAL_ACK)) {
      assert FromClient(c, w.snd, m.p);
    } else {
      var m :| m in w.toClient && Carries(m.p, FLAG_EOF_ACK);
      assert FromServer(c, w.snd, w.children[m.child].srv, m.p);
    }
  }

  /** As soon as the end of file handshake has begun, with whichever child, the peer has written
      the whole input file. */
  lemma EndOfFileMeansWritten(c: Config, disk: Octets, turns: seq<Turn>)
    requires c.Ok() && Go(c, InitialWorld(c, disk), turns).Some?
    requires EndOfFileAbout(Go(c, InitialWorld(c, disk), turns).value)
    ensures var w := Go(c, InitialWorld(c, disk), turns).value;
            && w.cut <= |File(c)| && w.disk == OnDisk(File(c), w.cut)
            && w.peer.Some? && w.peer.value < |w.children|
            && w.children[w.peer.value].srv.recv.expected == |c.chunks|
  {
    hide Go, OnDisk, Sound, DiskOk, EndOfFileAbout, CanComplete, File;
    InitialSound(c, disk);
    InitialDiskOk(c, disk);
    GoKeepsDisk(c, InitialWorld(c, disk), turns);
    var w := Go(c, InitialWorld(c, disk), turns).value;
    EndOfFileIsDue(c, w);
    AcknowledgedCanComplete(c, w);
    PeerWrote(c, w);
    assert File(c) == FileUpTo(c.chunks, |c.chunks|) by {
      TheFile(c);
    }
  }

  lemma TheFile(c: Config)
    ensures File(c) == FileUpTo(c.chunks, |c.chunks|)
  {
  }

  /** Whatever happens next, the client keeps its peer and the peer only appends. */
  lemma {:induction false} PeerOnlyAppends(c: Config, w: World, turns: seq<Turn>)
    requires c.Ok() && Sound(c, w) && DiskOk(c, w) && w.peer.Some? && Go(c, w, turns).Some?
    ensures var u, j := Go(c, w, turns).value, w.peer.value;
            && u.peer == w.peer && j < |w.children| <= |u.children|
            && w.children[j].srv.recv.Ok() && u.children[j].srv.recv.Ok()
            && FileWritten(w.children[j].srv) <= FileWritten(u.children[j].srv)
    decreases turns
  {
    hide Sound, DiskOk, CanTake, Take, FileWritten;
    PeerWrote(c, w);
    if turns != [] {
      var v := Take(c, w, turns[0]);
      TakeKeepsSound(c, w, turns[0]);
      TakeKeepsDisk(c, w, turns[0]);
      PeerStays(c, w, turns[0]);
      PeerWrote(c, v);
      FilePrefix(c.chunks, w.children[w.peer.value].srv.recv.expected, v.children[w.peer.value].srv.recv.expected);
      PeerOnlyAppends(c, v, turns[1..]);
    }
  }

  lemma PeerStays(c: Config, w: World, t: Turn)
    requires c.Ok() && Sound(c, w) && CanTake(c, w, t) && w.peer.Some?
    ensures var v, j := Take(c, w, t), w.peer.value;
            && v.peer == w.peer && j < |w.children| <= |v.children|
            && w.children[j].srv.recv.expected <= v.children[j].srv.recv.expected
  {
    hide SenderStep, ServerStep, ListenStep, Good, MailOk, SenderOk, Idle, Usable, Flushed, WriteAt, Receive, Post;
    if t.ChildTurn? {
      var srv, i := w.children[t.child].srv, t.request;
      HostReceives(srv, i);
      if w.peer == Some(t.child) && srv.phase == RECEIVING && IsData(i) {
        PeerReceives(c, w, SequenceNum(i.p), Payload(i.p));
      }
    }
  }

  lemma PeerReceives(c: Config, w: World, seqNum: nat, payload: Octets)
    requires Sound(c, w) && w.peer.Some?
    ensures w.peer.value < |w.children|
    ensures var v := w.children[w.peer.value].srv.recv;
            v.expected <= Receive(v, seqNum, payload).expected
  {
    hide MailOk, SenderOk, Idle, Traces, Receive;
    ReceiveKeepsOk(w.children[w.peer.value].srv.recv, seqNum, payload);
  }

  /** What was cut off can be missed: nothing, or a run of zeros with something behind it. */
  predicate Undamaged(c: Config, w: World) {
    w.cut == 0 || (w.cut < |File(c)| && File(c)[..w.cut] == Zeros(w.cut))
  }

  /** Everything is acknowledged and the output file is the input file. */
  predicate Delivered(c: Config, w: World) {
    AllAcknowledged(c, w.snd) && w.disk == File(c)
  }

  lemma DeliveredIfUndamaged(c: Config, w: World)
    requires c.Ok() && Sound(c, w) && DiskOk(c, w) && AllAcknowledged(c, w.snd)
    ensures Delivered(c, w) <==> Undamaged(c, w)
  {
    hide Sound, DiskOk, OnDisk, CanComplete;
    AcknowledgedCanComplete(c, w);
    PeerWrote(c, w);
    OnDiskIsWritten(File(c), w.cut);
  }

  lemma DamageStays(c: Config, w: World, u: World)
    requires w.cut <= u.cut && Undamaged(c, u)
    ensures Undamaged(c, w)
  {
    if w.cut > 0 {
      assert File(c)[..w.cut] == File(c)[..u.cut][..w.cut];
    }
  }

  /** The exact condition for delivery by the whole host: some continuation has everything
      acknowledged and the input file on the disk if and only if the transfer can complete and
      nothing that matters was cut off. */
  lemma DeliveredExactly(c: Config, disk: Octets, turns: seq<Turn>)
    requires c.Ok() && Go(c, InitialWorld(c, disk), turns).Some?
    ensures var w := Go(c, InitialWorld(c, disk), turns).value;
            (exists more :: Go(c, w, more).Some? && Delivered(c, Go(c, w, more).value))
            <==> CanComplete(c, w) && Undamaged(c, w)
  {
    hide Sound, DiskOk, CanComplete, Go, Undamaged, AllAcknowledged, Zeros;
    InitialSound(c, disk);
    InitialDiskOk(c, disk);
    GoKeepsDisk(c, InitialWorld(c, disk), turns);
    var w := Go(c, InitialWorld(c, disk), turns).value;
    if CanComplete(c, w) && Undamaged(c, w) {
      var more, u := CanCompleteCompletes(c, w);
      GoKeepsDisk(c, w, more);
      assert u.cut <= w.cut;
      DamageStays(c, u, w);
      DeliveredIfUndamaged(c, u);
    }
    forall more | Go(c, w, more).Some? && Delivered(c, Go(c, w, more).value) ensures CanComplete(c, w) && Undamaged(c, w) {
      CanCompleteExactly(c, disk, turns);
      GoKeepsDisk(c, w, more);
      DeliveredIfUndamaged(c, Go(c, w, more).value);
      DamageStays(c, w, Go(c, w, more).value);
    }
  }

  // ---------------------------------------------------------------- a transfer that only looks successful

  /** The requests that the parent was given, in order. */
  function Taken(turns: seq<Turn>): seq<Octets> {
    if turns == [] then []
    else (if turns[0].ParentTurn? then [turns[0].p] else []) + Taken(turns[1..])
  }

  lemma {:induction false} TakenAppend(a: seq<Turn>, b: seq<Turn>)
    ensures Taken(a + b) == Taken(a) + Taken(b)
    decreases a
  {
    if a == [] {
      assert a + b == b;
    } else {
      assert (a + b)[0] == a[0] && (a + b)[1..] == a[1..] + b;
      TakenAppend(a[1..], b);
    }
  }

  lemma {:induction false} NothingTaken(turns: seq<Turn>)
    requires NoFork(turns)
    ensures Taken(turns) == []
    decreases turns
  {
    if turns != [] {
      assert turns[0] in turns;
      NothingTaken(turns[1..]);
    }
  }

  lemma {:induction false} RequestsStay(c: Config, w: World, turns: seq<Turn>)
    requires Go(c, w, turns).Some?
    ensures w.toParent <= Go(c, w, turns).value.toParent
    decreases turns
  {
    hide SenderStep, ServerStep, ListenStep, IsRequest, WriteAt, Flushed;
    if turns != [] {
      RequestsStay(c, Take(c, w, turns[0]), turns[1..]);
    }
  }

  ghost predicate Distinct(s: seq<Octets>) {
    forall i, j :: 0 <= i < j < |s| ==> s[i] != s[j]
  }

  /** Everything is acknowledged, the disk does not hold the file, and the parent was given no
      request twice. */
  ghost predicate FalseSuccess(c: Config, disk: Octets, turns: seq<Turn>) {
    && Go(c, InitialWorld(c, disk), turns).Some?
    && AllAcknowledged(c, Go(c, InitialWorld(c, disk), turns).value.snd)
    && Go(c, InitialWorld(c, disk), turns).value.disk != File(c)
    && Distinct(Taken(turns))
  }

  /** The client times out once and asks again: two requests, different in their numbers. */
  lemma AskTwice(c: Config, disk: Octets) returns (w: World, first: Octets, second: Octets)
    requires c.Ok()
    ensures Go(c, InitialWorld(c, disk), [WAITS, WAITS, WAITS]) == Some(w) && Sound(c, w)
    ensures w.peer.None? && InHandshake(w.snd) && {first, second} <= w.toParent
    ensures first != second && IsRequest(first) && IsRequest(second)
  {
    hide Sound, CanTake, Take, IsRequest, EncodePdu;
    var w0 := InitialWorld(c, disk);
    InitialSound(c, disk);
    var w1 := Ask(c, w0);
    var w2 := TryAgain(c, w1);
    w := Ask(c, w2);
    first, second := Request(c, w0.snd), Request(c, w2.snd);
    GoOne(c, w2, WAITS);
    assert [WAITS, WAITS, WAITS][1..] == [WAITS, WAITS] && [WAITS, WAITS][1..] == [WAITS];
    assert Go(c, w1, [WAITS, WAITS]) == Some(w);
  }

  /** One more part of a run. */
  lemma Onwards(c: Config, start: World, turns: seq<Turn>, w: World, more: seq<Turn>)
    requires Go(c, start, turns) == Some(w)
    ensures Go(c, start, turns + more) == Go(c, w, more)
    ensures Taken(turns + more) == Taken(turns) + Taken(more)
  {
    hide Go, Taken;
    GoAppend(c, start, turns, more);
    TakenAppend(turns, more);
  }

  /** After the first request has been served in full, the second is still at the parent. */
  lemma ServeFirst(c: Config, disk: Octets) returns (turns: seq<Turn>, w: World, first: Octets, second: Octets)
    requires c.Ok()
    ensures Go(c, InitialWorld(c, disk), turns) == Some(w) && Sound(c, w) && AllAcknowledged(c, w.snd)
    ensures Taken(turns) == [first] && second in w.toParent && first != second && IsRequest(second)
  {
    hide Sound, CanTake, Take, Go, CanComplete, IsRequest, AllAcknowledged, InitialWorld, Forks;
    var waits := [WAITS, WAITS, WAITS];
    var accept, transfer, u, v;
    u, first, second := AskTwice(c, disk);
    accept, v := ForkAndAccept(c, u, first);
    Onwards(c, InitialWorld(c, disk), waits, u, [Forks(first)] + accept);
    RequestsStay(c, u, [Forks(first)] + accept);
    turns := waits + ([Forks(first)] + accept);
    transfer, w := PeerCompletes(c, v);
    Onwards(c, InitialWorld(c, disk), turns, v, transfer);
    RequestsStay(c, v, transfer);
    NothingTaken(waits);
    NothingTaken(accept);
    NothingTaken(transfer);
    TakenAppend([Forks(first)], accept);
    OneTaken(first);
    turns := turns + transfer;
  }

  lemma OneTaken(p: Octets)
    ensures Taken([Forks(p)]) == [p]
  {
    assert [Forks(p)][1..] == [];
  }

  lemma LateRequest(c: Config, disk: Octets) returns (turns: seq<Turn>)
    requires c.Ok() && |c.chunks| >= 1
    ensures FalseSuccess(c, disk, turns)
  {
    hide Sound, CanTake, Take, Go, IsRequest, AllAcknowledged, InitialWorld, Forks;
    var served, w, first, second := ServeFirst(c, disk);
    var u, _ := Fork(c, w, second);
    GoOne(c, w, Forks(second));
    Onwards(c, InitialWorld(c, disk), served, w, [Forks(second)]);
    OneTaken(second);
    turns := served + [Forks(second)];
    FileIsNotEmpty(c);
  }

  lemma GoOne(c: Config, w: World, t: Turn)
    requires CanTake(c, w, t)
    ensures Go(c, w, [t]) == Some(Take(c, w, t))
  {
    hide CanTake, Take;
    assert [t][1..] == [];
    assert Go(c, Take(c, w, t), []) == Some(Take(c, w, t));
  }

  lemma FileIsNotEmpty(c: Config)
    requires c.Ok() && |c.chunks| >= 1
    ensures File(c) != []
  {
    assert c.chunks[|c.chunks| - 1] in c.chunks;
  }

  /** A transfer can end with every packet acknowledged and the file lost exactly if the file is
      not empty: the second request reaches the parent late, and its child truncates the file. */
  lemma FalseSuccessExactly(c: Config, disk: Octets)
    requires c.Ok()
    ensures (exists turns :: FalseSuccess(c, disk, turns)) <==> |c.chunks| >= 1
  {
    hide FalseSuccess;
    if |c.chunks| >= 1 {
      var turns := LateRequest(c, disk);
    }
    forall turns | FalseSuccess(c, disk, turns) ensures |c.chunks| >= 1 {
      EmptyFileIsSafe(c, disk, turns);
    }
  }

  lemma EmptyFileIsSafe(c: Config, disk: Octets, turns: seq<Turn>)
    requires c.Ok() && FalseSuccess(c, disk, turns)
    ensures |c.chunks| >= 1
  {
    hide Go, Sound, CanComplete, Taken, DiskOk;
    InitialSound(c, disk);
    InitialDiskOk(c, disk);
    GoKeepsDisk(c, InitialWorld(c, disk), turns);
    var w := Go(c, InitialWorld(c, disk), turns).value;
    AcknowledgedCanComplete(c, w);
    PeerWrote(c, w);
  }
}

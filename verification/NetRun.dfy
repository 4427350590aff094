/**
  One run of a blktrace client against the network server: when does the server take the
  host down?  Each connection carries opens, data and closes in order; the server reads the
  connections in any order.
 */
module NetRun {

  /** A header with the data behind it.  The length also says what it is: 0 opens and 1 closes. */
  datatype Msg = Msg(len: nat, block: nat)

  const OPEN := Msg(0, 0)
  const CLOSE := Msg(1, 0)

  /** Where the socket is: not connected, in the backlog, on the host's list, or off it again. */
  datatype Link = Absent | Connected | Accepted | Dropped

  /** The client's side: opens that are acknowledged, one that is not yet, data, closes that are sent. */
  datatype Phase = Idle(acked: nat) | AwaitAck(acked: nat) | Running | Closing(closes: nat)

  datatype Conn = Conn(
    link: Link, phase: Phase, wire: seq<Msg>, acks: nat,
    opensGot: nat, closesGot: nat, sent: seq<Msg>, got: seq<Msg>)

  /** `go` is `tracers_run`; the rest is the server's `cl_host`, and how often it was removed. */
  datatype State = State(conns: seq<Conn>, go: bool, hostUp: bool, clOpens: int, removals: nat)

  function Initial(nconns: nat): State {
    State(seq(nconns, _ => Conn(Absent, Idle(0), [], 0, 0, 0, [], [])), false, false, 0, 0)
  }

  // ---------- the client ----------

  /** `nopens` opens and as many closes go over each connection: one, or one for each device. */
  datatype Action = Connect | SendOpen | GetAck | Start | SendData(m: Msg) | SendClose

  predicate ClientCan(nopens: nat, go: bool, x: Conn, a: Action) {
    match a
    case Connect => x.link == Absent
    case SendOpen => x.link != Absent && x.phase.Idle? && x.phase.acked < nopens
    case GetAck => x.phase.AwaitAck? && x.acks > 0
    case Start => go && x.phase == Idle(nopens)
    case SendData(m) => x.phase.Running? && m.len >= 1
    case SendClose => x.phase.Running? || (x.phase.Closing? && x.phase.closes < nopens)
  }

  function Client(nopens: nat, go: bool, x: Conn, a: Action): Conn
    requires ClientCan(nopens, go, x, a)
  {
    match a
    case Connect => x.(link := Connected)
    case SendOpen => x.(wire := x.wire + [OPEN], phase := AwaitAck(x.phase.acked))
    case GetAck => x.(acks := x.acks - 1, phase := Idle(x.phase.acked + 1))
    case Start => x.(phase := Running)
    case SendData(m) => x.(wire := x.wire + [m], sent := x.sent + [m])
    case SendClose => x.(wire := x.wire + [CLOSE], phase := Closing(if x.phase.Running? then 1 else x.phase.closes + 1))
  }

  /** Whichever thread it is, it acts on one connection at a time. */
  ghost predicate ClientStep(nopens: nat, s: State, t: State, i: nat, a: Action) {
    && i < |s.conns| && ClientCan(nopens, s.go, s.conns[i], a)
    && t == s.(conns := s.conns[i := Client(nopens, s.go, s.conns[i], a)])
  }

  /** `unblock_tracers`, once all tracers are through `open_ios`. */
  ghost predicate UnblockStep(nopens: nat, s: State, t: State) {
    (forall i :: 0 <= i < |s.conns| ==> s.conns[i].phase == Idle(nopens)) && t == s.(go := true)
  }

  // ---------- the server ----------

  /** `net_add_connection`: the first connection makes the host. */
  ghost predicate AcceptStep(s: State, t: State, i: nat) {
    && i < |s.conns| && s.conns[i].link == Connected
    && t == s.(conns := s.conns[i := s.conns[i].(link := Accepted)], hostUp := true,
               clOpens := if s.hostUp then s.clOpens else 0)
  }

  /** `ch_rem_connection` for every connection of the host. */
  function Drop(x: Conn): Conn { if x.link == Accepted then x.(link := Dropped) else x }

  function DropAll(xs: seq<Conn>): seq<Conn> {
    seq(|xs|, i requires 0 <= i < |xs| => Drop(xs[i]))
  }

  /** `net_client_data` as the connection sees it. */
  function Received(x: Conn): Conn
    requires x.wire != []
  {
    var m, y := x.wire[0], x.(wire := x.wire[1..]);
    if m.len == 0 then y.(opensGot := y.opensGot + 1, acks := y.acks + 1)
    else if m.len == 1 then y.(closesGot := y.closesGot + 1, acks := y.acks + 1)
    else y.(got := y.got + [m])
  }

  /** `net_client_data` as the host sees it: on the last close it is removed. */
  function Read(s: State, i: nat): State
    requires i < |s.conns| && s.conns[i].wire != []
  {
    var m, conns := s.conns[i].wire[0], s.conns[i := Received(s.conns[i])];
    if m.len == 0 then s.(conns := conns, clOpens := s.clOpens + 1)
    else if m.len != 1 then s.(conns := conns)
    else if s.clOpens - 1 != 0 then s.(conns := conns, clOpens := s.clOpens - 1)
    else s.(conns := DropAll(conns), clOpens := 0, hostUp := false, removals := s.removals + 1)
  }

  ghost predicate ReceiveStep(s: State, t: State, i: nat) {
    i < |s.conns| && s.conns[i].link == Accepted && s.conns[i].wire != [] && t == Read(s, i)
  }

  ghost predicate Step(nopens: nat, s: State, t: State) {
    || UnblockStep(nopens, s, t)
    || (exists i, a :: ClientStep(nopens, s, t, i, a))
    || (exists i :: AcceptStep(s, t, i))
    || (exists i :: ReceiveStep(s, t, i))
  }

  ghost predicate Run(nconns: nat, nopens: nat, states: seq<State>) {
    && states != [] && states[0] == Initial(nconns)
    && forall i :: 0 <= i < |states| - 1 ==> Step(nopens, states[i], states[i + 1])
  }

  // ---------- the invariant ----------

  function Closes(n: nat): seq<Msg> {
    seq(n, _ => CLOSE)
  }

  /** A block of one byte would be taken for a close. */
  predicate Regular(x: Conn) {
    forall k :: 0 <= k < |x.sent| ==> x.sent[k].len >= 2
  }

  /** The data that are still to be read from a connection on which `closes` are still to be read. */
  function DataIn(wire: seq<Msg>, closes: nat): seq<Msg>
    requires closes <= |wire|
  {
    wire[..|wire| - closes]
  }

  predicate ConnOk(nopens: nat, go: bool, x: Conn) {
    && (x.opensGot > 0 ==> x.link == Accepted || x.link == Dropped)
    && match x.phase
       case Idle(k) =>
         && k <= nopens && (go ==> k == nopens) && x.wire == [] && x.acks == 0
         && x.opensGot == k && x.closesGot == 0 && x.sent == [] && x.got == []
       case AwaitAck(k) =>
         && k < nopens && !go && x.closesGot == 0 && x.sent == [] && x.got == []
         && if x.wire == [] then x.acks == 1 && x.opensGot == k + 1
            else x.wire == [OPEN] && x.acks == 0 && x.opensGot == k
       case Running =>
         go && x.opensGot == nopens && x.closesGot == 0 && x.acks == 0 && x.got + x.wire == x.sent
       case Closing(q) =>
         && go && x.opensGot == nopens && x.acks == x.closesGot <= q && 1 <= q <= nopens
         && var closes := q - x.closesGot;
            && closes <= |x.wire| && x.wire == DataIn(x.wire, closes) + Closes(closes)
            && x.got + DataIn(x.wire, closes) == x.sent && (x.closesGot > 0 ==> DataIn(x.wire, closes) == [])
  }

  /** A connection that is over: all closes read, and with them all data. */
  predicate Over(nopens: nat, x: Conn) {
    x.phase == Closing(nopens) && x.closesGot == nopens && x.wire == [] && x.got == x.sent
  }

  /** The opens that are not closed again, as the server has read them. */
  function StillOpen(xs: seq<Conn>): int {
    if xs == [] then 0 else xs[0].opensGot - xs[0].closesGot + StillOpen(xs[1..])
  }

  predicate AllConnsOk(nopens: nat, go: bool, xs: seq<Conn>) {
    forall i :: 0 <= i < |xs| ==> ConnOk(nopens, go, xs[i])
  }

  predicate AllRegular(xs: seq<Conn>) {
    forall i :: 0 <= i < |xs| ==> Regular(xs[i])
  }

  /** The host is made by the first connection and removed when all are over, not before and not again. */
  predicate HostOk(nopens: nat, s: State) {
    if s.removals == 0 then
      && (s.hostUp ==> s.clOpens == StillOpen(s.conns))
      && (s.go && s.conns != [] ==> StillOpen(s.conns) > 0)
      && (forall i :: 0 <= i < |s.conns| ==>
           s.conns[i].link != Dropped && (s.conns[i].link == Accepted ==> s.hostUp))
    else
      && s.removals == 1 && !s.hostUp
      && (forall i :: 0 <= i < |s.conns| ==> s.conns[i].link == Dropped && Over(nopens, s.conns[i]))
  }

  predicate Inv(nopens: nat, s: State) {
    AllConnsOk(nopens, s.go, s.conns) && HostOk(nopens, s)
  }

  // ---------- what a step does to one connection ----------

  lemma ClientKeepsConn(nopens: nat, go: bool, x: Conn, a: Action)
    requires nopens >= 1 && ConnOk(nopens, go, x) && ClientCan(nopens, go, x, a)
    ensures ConnOk(nopens, go, Client(nopens, go, x, a))
    ensures var y := Client(nopens, go, x, a); y.opensGot == x.opensGot && y.closesGot == x.closesGot
  {
    var y := Client(nopens, go, x, a);
    match a
    case SendData(m) =>
      assert x.got + y.wire == x.got + x.wire + [m];
    case SendClose =>
      var before := if x.phase.Running? then 0 else x.phase.closes - x.closesGot;
      assert Closes(before + 1) == Closes(before) + [CLOSE];
      assert DataIn(y.wire, before + 1) == DataIn(x.wire, before);
    case _ =>
  }

  lemma ReceiveData(nopens: nat, go: bool, x: Conn)
    requires ConnOk(nopens, go, x) && Regular(x) && x.wire != []
    requires x.phase.Running? || (x.phase.Closing? && DataIn(x.wire, x.phase.closes - x.closesGot) != [])
    ensures x.wire[0].len >= 2 && ConnOk(nopens, go, x.(wire := x.wire[1..], got := x.got + [x.wire[0]]))
  {
    var m, y := x.wire[0], x.(wire := x.wire[1..], got := x.got + [x.wire[0]]);
    var closes := if x.phase.Running? then 0 else x.phase.closes - x.closesGot;
    var data := DataIn(x.wire, closes);
    assert data == [m] + data[1..] && m == x.sent[|x.got|];
    assert DataIn(y.wire, closes) == data[1..];
    assert x.got + [m] + data[1..] == x.got + data;
    assert x.phase.Running? ==> data == x.wire;
  }

  lemma ReceiveClose(nopens: nat, go: bool, x: Conn)
    requires ConnOk(nopens, go, x) && x.wire != []
    requires x.phase.Closing? && DataIn(x.wire, x.phase.closes - x.closesGot) == []
    ensures x.wire[0] == CLOSE
    ensures ConnOk(nopens, go, x.(wire := x.wire[1..], closesGot := x.closesGot + 1, acks := x.acks + 1))
  {
    var closes := x.phase.closes - x.closesGot;
    assert x.wire == Closes(closes) && x.wire[1..] == Closes(closes - 1);
    assert DataIn(x.wire[1..], closes - 1) == [];
  }

  lemma ReceiveOpen(nopens: nat, go: bool, x: Conn)
    requires ConnOk(nopens, go, x) && x.wire != [] && x.phase.AwaitAck? && x.link == Accepted
    ensures x.wire[0] == OPEN
    ensures ConnOk(nopens, go, x.(wire := x.wire[1..], opensGot := x.opensGot + 1, acks := x.acks + 1))
  {
    assert x.wire[1..] == [];
  }

  lemma ReceiveWhileClosing(nopens: nat, go: bool, x: Conn)
    requires ConnOk(nopens, go, x) && Regular(x) && x.wire != [] && x.link == Accepted && x.phase.Closing?
    ensures ConnOk(nopens, go, Received(x)) && go
  {
    if DataIn(x.wire, x.phase.closes - x.closesGot) == [] {
      ReceiveClose(nopens, go, x);
    } else {
      ReceiveData(nopens, go, x);
    }
  }

  lemma ReceiveKeepsConn(nopens: nat, go: bool, x: Conn)
    requires ConnOk(nopens, go, x) && Regular(x) && x.wire != [] && x.link == Accepted
    ensures ConnOk(nopens, go, Received(x))
    ensures x.wire[0].len == 1 ==> go
  {
    match x.phase
    case AwaitAck(k) => ReceiveOpen(nopens, go, x);
    case Running => ReceiveData(nopens, go, x);
    case Closing(q) => ReceiveWhileClosing(nopens, go, x);
  }

  // ---------- what a step does to the host ----------

  lemma {:induction false} StillOpenUpdate(xs: seq<Conn>, i: nat, y: Conn)
    requires i < |xs|
    ensures StillOpen(xs[i := y]) - (y.opensGot - y.closesGot) == StillOpen(xs) - (xs[i].opensGot - xs[i].closesGot)
  {
    if i == 0 {
      assert xs[0 := y][1..] == xs[1..];
    } else {
      assert xs[i := y][1..] == xs[1..][i - 1 := y];
      StillOpenUpdate(xs[1..], i - 1, y);
    }
  }

  /** No connection has more closes than opens. */
  lemma ClosesAfterOpens(nopens: nat, go: bool, x: Conn)
    requires ConnOk(nopens, go, x)
    ensures x.closesGot <= x.opensGot
  {
  }

  lemma {:induction false} NoneStillOpenIn(xs: seq<Conn>)
    requires forall i :: 0 <= i < |xs| ==> xs[i].closesGot <= xs[i].opensGot
    ensures StillOpen(xs) >= 0
    ensures StillOpen(xs) == 0 ==> forall i :: 0 <= i < |xs| ==> xs[i].opensGot == xs[i].closesGot
  {
    if xs != [] {
      NoneStillOpenIn(xs[1..]);
      assert forall i :: 1 <= i < |xs| ==> xs[i] == xs[1..][i - 1];
    }
  }

  /** So none is open only if each is closed. */
  lemma NoneStillOpen(nopens: nat, go: bool, xs: seq<Conn>)
    requires AllConnsOk(nopens, go, xs)
    ensures StillOpen(xs) >= 0
    ensures StillOpen(xs) == 0 ==> forall i :: 0 <= i < |xs| ==> xs[i].opensGot == xs[i].closesGot
  {
    forall i | 0 <= i < |xs| ensures xs[i].closesGot <= xs[i].opensGot {
      ClosesAfterOpens(nopens, go, xs[i]);
    }
    NoneStillOpenIn(xs);
  }

  lemma ClosedIsOver(nopens: nat, x: Conn)
    requires nopens >= 1 && ConnOk(nopens, true, x) && x.opensGot == x.closesGot
    ensures Over(nopens, x) && (x.link == Accepted || x.link == Dropped)
  {
    if x.phase.Closing? {
      assert x.wire == DataIn(x.wire, 0) + Closes(0);
      assert x.got + [] == x.got;
    }
  }

  /** The client does nothing on a connection that is over and dropped. */
  lemma OverCannotAct(nopens: nat, go: bool, x: Conn, a: Action)
    ensures x.link == Dropped && Over(nopens, x) ==> !ClientCan(nopens, go, x, a)
  {
  }

  lemma ClientKeepsInv(nopens: nat, s: State, t: State, i: nat, a: Action)
    requires nopens >= 1 && Inv(nopens, s) && ClientStep(nopens, s, t, i, a)
    ensures Inv(nopens, t)
  {
    var x := s.conns[i];
    assert ConnOk(nopens, s.go, x);
    ClientKeepsConn(nopens, s.go, x, a);
    StillOpenUpdate(s.conns, i, t.conns[i]);
    OverCannotAct(nopens, s.go, x, a);
  }

  lemma UnblockKeepsInv(nopens: nat, s: State, t: State)
    requires nopens >= 1 && Inv(nopens, s) && UnblockStep(nopens, s, t)
    ensures Inv(nopens, t)
  {
    forall i | 0 <= i < |s.conns| ensures ConnOk(nopens, true, s.conns[i]) {
      assert ConnOk(nopens, s.go, s.conns[i]);
    }
    NoneStillOpen(nopens, s.go, s.conns);
    if s.conns != [] {
      assert ConnOk(nopens, s.go, s.conns[0]);
    }
  }

  lemma {:induction false} NoneOpened(xs: seq<Conn>)
    requires forall i :: 0 <= i < |xs| ==> xs[i].opensGot == 0 && xs[i].closesGot == 0
    ensures StillOpen(xs) == 0
  {
    if xs != [] {
      NoneOpened(xs[1..]);
    }
  }

  lemma AcceptKeepsInv(nopens: nat, s: State, t: State, i: nat)
    requires nopens >= 1 && Inv(nopens, s) && AcceptStep(s, t, i)
    ensures Inv(nopens, t)
  {
    assert ConnOk(nopens, s.go, s.conns[i]);
    StillOpenUpdate(s.conns, i, t.conns[i]);
    if !s.hostUp {
      forall k | 0 <= k < |s.conns| ensures s.conns[k].opensGot == 0 && s.conns[k].closesGot == 0 {
        assert ConnOk(nopens, s.go, s.conns[k]) && s.conns[k].link != Accepted;
      }
      NoneOpened(s.conns);
    }
  }

  /** When a close leaves none open, every connection is over. */
  lemma LastCloseIsLast(nopens: nat, xs: seq<Conn>, k: nat)
    requires nopens >= 1 && AllConnsOk(nopens, true, xs) && StillOpen(xs) == 0 && k < |xs| && xs[k].link != Dropped
    ensures var y := Drop(xs[k]); ConnOk(nopens, true, y) && y.link == Dropped && Over(nopens, y)
  {
    NoneStillOpen(nopens, true, xs);
    assert ConnOk(nopens, true, xs[k]);
    ClosedIsOver(nopens, xs[k]);
  }

  lemma ReceivedConns(nopens: nat, s: State, i: nat)
    requires Inv(nopens, s) && AllRegular(s.conns)
    requires i < |s.conns| && s.conns[i].link == Accepted && s.conns[i].wire != []
    ensures s.removals == 0 && s.hostUp
    ensures AllConnsOk(nopens, s.go, s.conns[i := Received(s.conns[i])])
    ensures StillOpen(s.conns[i := Received(s.conns[i])]) - s.clOpens
         == (if s.conns[i].wire[0].len == 0 then 1 else if s.conns[i].wire[0].len == 1 then -1 else 0)
    ensures s.conns[i].wire[0].len == 1 ==> s.go
  {
    var x := s.conns[i];
    assert ConnOk(nopens, s.go, x) && Regular(x);
    ReceiveKeepsConn(nopens, s.go, x);
    StillOpenUpdate(s.conns, i, Received(x));
  }

  lemma RemovalKeepsInv(nopens: nat, s: State, t: State, conns: seq<Conn>)
    requires nopens >= 1 && AllConnsOk(nopens, true, conns) && StillOpen(conns) == 0 && s.removals == 0
    requires forall k :: 0 <= k < |conns| ==> conns[k].link != Dropped
    requires t == s.(conns := DropAll(conns), clOpens := 0, hostUp := false, removals := 1) && t.go
    ensures Inv(nopens, t)
  {
    var ys := DropAll(conns);
    forall k | 0 <= k < |ys| ensures ConnOk(nopens, true, ys[k]) && ys[k].link == Dropped && Over(nopens, ys[k]) {
      LastCloseIsLast(nopens, conns, k);
    }
    assert AllConnsOk(nopens, true, ys);
    assert t.conns == ys && t.go;
  }

  lemma ReadKeepsHost(nopens: nat, s: State, conns: seq<Conn>, clOpens: int)
    requires HostOk(nopens, s) && s.removals == 0 && s.hostUp && |conns| == |s.conns| && clOpens == StillOpen(conns)
    requires AllConnsOk(nopens, s.go, conns) && (s.go ==> clOpens != 0)
    requires forall k :: 0 <= k < |conns| ==> conns[k].link == s.conns[k].link
    ensures HostOk(nopens, s.(conns := conns, clOpens := clOpens))
  {
    NoneStillOpen(nopens, s.go, conns);
  }

  lemma ReceiveKeepsInv(nopens: nat, s: State, t: State, i: nat)
    requires nopens >= 1 && Inv(nopens, s) && AllRegular(s.conns) && ReceiveStep(s, t, i)
    ensures Inv(nopens, t)
  {
    ReceivedConns(nopens, s, i);
    var conns := s.conns[i := Received(s.conns[i])];
    assert forall k :: 0 <= k < |conns| ==> conns[k].link == s.conns[k].link;
    if t.removals != s.removals {
      RemovalKeepsInv(nopens, s, t, conns);
    } else {
      ReadKeepsHost(nopens, s, conns, t.clOpens);
      assert t == s.(conns := conns, clOpens := t.clOpens);
    }
  }

  lemma StepKeepsSize(nopens: nat, s: State, t: State)
    requires Step(nopens, s, t)
    ensures |t.conns| == |s.conns|
  {
  }

  lemma StepKeepsInv(nopens: nat, s: State, t: State)
    requires nopens >= 1 && Inv(nopens, s) && AllRegular(s.conns) && Step(nopens, s, t)
    ensures Inv(nopens, t)
  {
    if UnblockStep(nopens, s, t) {
      UnblockKeepsInv(nopens, s, t);
    } else if i, a :| ClientStep(nopens, s, t, i, a) {
      ClientKeepsInv(nopens, s, t, i, a);
    } else if i :| AcceptStep(s, t, i) {
      AcceptKeepsInv(nopens, s, t, i);
    } else {
      var i :| ReceiveStep(s, t, i);
      ReceiveKeepsInv(nopens, s, t, i);
    }
  }

  lemma {:induction false} RunKeepsInv(nconns: nat, nopens: nat, states: seq<State>, j: nat)
    requires nopens >= 1 && Run(nconns, nopens, states) && j < |states|
    requires forall i :: 0 <= i < j ==> AllRegular(states[i].conns)
    ensures Inv(nopens, states[j]) && |states[j].conns| == nconns
  {
    if j == 0 {
      NoneOpened(states[0].conns);
    } else {
      RunKeepsInv(nconns, nopens, states, j - 1);
      assert Step(nopens, states[j - 1], states[j]);
      StepKeepsSize(nopens, states[j - 1], states[j]);
      StepKeepsInv(nopens, states[j - 1], states[j]);
    }
  }

  // ---------- the main results ----------

  /** No close is sent, let alone read, before every open of every connection was read. */
  lemma OpensBeforeCloses(nconns: nat, nopens: nat, states: seq<State>, j: nat, i: nat, k: nat)
    requires nopens >= 1 && Run(nconns, nopens, states) && j < |states|
    requires forall n :: 0 <= n < j ==> AllRegular(states[n].conns)
    requires i < |states[j].conns| && k < |states[j].conns| && states[j].conns[i].phase.Closing?
    ensures states[j].conns[k].opensGot == nopens
  {
    RunKeepsInv(nconns, nopens, states, j);
    assert ConnOk(nopens, states[j].go, states[j].conns[i]) && ConnOk(nopens, states[j].go, states[j].conns[k]);
  }

  /**
    The host is removed once at most, and then everything that was sent on any of its
    connections has been read, to the last block.
   */
  lemma RemovedOnlyWhenOver(nconns: nat, nopens: nat, states: seq<State>, j: nat)
    requires nopens >= 1 && Run(nconns, nopens, states) && j < |states|
    requires forall n :: 0 <= n < j ==> AllRegular(states[n].conns)
    ensures states[j].removals <= 1
    ensures states[j].removals == 1 ==>
      !states[j].hostUp && forall i :: 0 <= i < |states[j].conns| ==> Over(nopens, states[j].conns[i])
  {
    RunKeepsInv(nconns, nopens, states, j);
  }

  /** Once the last close has been read the host has been removed. */
  lemma RemovedWhenOver(nconns: nat, nopens: nat, states: seq<State>, j: nat)
    requires nconns >= 1 && nopens >= 1 && Run(nconns, nopens, states) && j < |states|
    requires forall n :: 0 <= n < j ==> AllRegular(states[n].conns)
    requires forall i :: 0 <= i < |states[j].conns| ==> states[j].conns[i].closesGot == nopens
    ensures states[j].removals == 1
  {
    RunKeepsInv(nconns, nopens, states, j);
    var s := states[j];
    forall i | 0 <= i < |s.conns| ensures s.go && s.conns[i].opensGot == s.conns[i].closesGot {
      assert ConnOk(nopens, s.go, s.conns[i]);
    }
    AllClosed(s.conns);
    assert s.conns[0].closesGot == nopens;
  }

  /** Something is to be done on the connection, other than to wait for the rest to be opened. */
  predicate CanGoOn(nopens: nat, s: State, i: nat)
    requires i < |s.conns|
  {
    !Over(nopens, s.conns[i]) && (s.conns[i].phase == Idle(nopens) ==> s.conns[i].link != Accepted || s.go)
  }

  lemma ConnCanGoOn(nopens: nat, s: State, i: nat)
    requires nopens >= 1 && i < |s.conns| && ConnOk(nopens, s.go, s.conns[i]) && s.conns[i].link != Dropped
    requires CanGoOn(nopens, s, i)
    ensures exists t :: Step(nopens, s, t)
  {
    var x := s.conns[i];
    if x.link == Connected {
      var t := s.(conns := s.conns[i := x.(link := Accepted)], hostUp := true,
                  clOpens := if s.hostUp then s.clOpens else 0);
      assert AcceptStep(s, t, i) && Step(nopens, s, t);
    } else if x.link == Accepted && x.wire != [] {
      var t := Read(s, i);
      assert ReceiveStep(s, t, i) && Step(nopens, s, t);
    } else {
      var a := NextAction(nopens, s.go, x);
      var t := s.(conns := s.conns[i := Client(nopens, s.go, x, a)]);
      assert ClientStep(nopens, s, t, i, a) && Step(nopens, s, t);
    }
  }

  /** What the client does next on a connection of which the server has read everything. */
  lemma NextAction(nopens: nat, go: bool, x: Conn) returns (a: Action)
    requires nopens >= 1 && ConnOk(nopens, go, x) && !Over(nopens, x)
    requires x.link == Absent || (x.link == Accepted && x.wire == [])
    requires x.phase == Idle(nopens) ==> x.link == Absent || go
    ensures ClientCan(nopens, go, x, a)
  {
    if x.link == Absent {
      a := Connect;
    } else {
      match x.phase
      case Idle(k) => a := if k < nopens then SendOpen else Start;
      case AwaitAck(k) => a := GetAck;
      case Running => a := SendClose;
      case Closing(q) =>
        if q == nopens {
          ReadUp(nopens, go, x);
        }
        a := SendClose;
    }
  }

  lemma ReadUp(nopens: nat, go: bool, x: Conn)
    requires ConnOk(nopens, go, x) && x.phase == Closing(nopens) && x.wire == []
    ensures Over(nopens, x)
  {
    assert DataIn(x.wire, 0) == [] && x.got + [] == x.got;
  }

  lemma SomeAreNotOver(nopens: nat, s: State)
    requires nopens >= 1 && Inv(nopens, s) && s.removals == 0 && s.conns != []
    ensures exists i :: 0 <= i < |s.conns| && !Over(nopens, s.conns[i])
  {
    if forall i :: 0 <= i < |s.conns| ==> Over(nopens, s.conns[i]) {
      forall i | 0 <= i < |s.conns| ensures s.go && s.conns[i].opensGot == s.conns[i].closesGot {
        assert ConnOk(nopens, s.go, s.conns[i]);
      }
      AllClosed(s.conns);
    }
  }

  /** In every state of every run some step is possible until the host has been removed. */
  lemma NoDeadlock(nconns: nat, nopens: nat, states: seq<State>, j: nat)
    requires nconns >= 1 && nopens >= 1 && Run(nconns, nopens, states) && j < |states|
    requires forall n :: 0 <= n < j ==> AllRegular(states[n].conns)
    requires states[j].removals == 0
    ensures exists t :: Step(nopens, states[j], t)
  {
    RunKeepsInv(nconns, nopens, states, j);
    var s := states[j];
    SomeAreNotOver(nopens, s);
    if i :| 0 <= i < |s.conns| && CanGoOn(nopens, s, i) {
      ConnCanGoOn(nopens, s, i);
    } else {
      forall i | 0 <= i < |s.conns| ensures Over(nopens, s.conns[i]) || s.conns[i].phase == Idle(nopens) {
        assert !CanGoOn(nopens, s, i);
      }
      var i :| 0 <= i < |s.conns| && !Over(nopens, s.conns[i]);
      assert !CanGoOn(nopens, s, i);
      AllAreOpen(nopens, s, i);
      assert UnblockStep(nopens, s, s.(go := true)) && Step(nopens, s, s.(go := true));
    }
  }

  /** Before the tracers are let go none is over. */
  lemma AllAreOpen(nopens: nat, s: State, i: nat)
    requires nopens >= 1 && Inv(nopens, s) && i < |s.conns| && !CanGoOn(nopens, s, i) && !Over(nopens, s.conns[i])
    requires forall k :: 0 <= k < |s.conns| ==> Over(nopens, s.conns[k]) || s.conns[k].phase == Idle(nopens)
    ensures forall k :: 0 <= k < |s.conns| ==> s.conns[k].phase == Idle(nopens)
  {
    forall k | 0 <= k < |s.conns| ensures s.conns[k].phase == Idle(nopens) {
      assert ConnOk(nopens, s.go, s.conns[k]);
    }
  }

  /** The acknowledgements that the client has taken. */
  function Taken(nopens: nat, x: Conn): nat {
    match x.phase
    case Idle(k) => k
    case AwaitAck(k) => k
    case Running => nopens
    case Closing(q) => nopens
  }

  /** Each open and each close that was read has been acknowledged once, and nothing else has. */
  lemma EachReadIsAcknowledged(nconns: nat, nopens: nat, states: seq<State>, j: nat, i: nat)
    requires nopens >= 1 && Run(nconns, nopens, states) && j < |states| && i < nconns
    requires forall n :: 0 <= n < j ==> AllRegular(states[n].conns)
    ensures i < |states[j].conns|
    ensures var x := states[j].conns[i]; x.acks + Taken(nopens, x) == x.opensGot + x.closesGot
  {
    RunKeepsInv(nconns, nopens, states, j);
    assert ConnOk(nopens, states[j].go, states[j].conns[i]);
  }

  lemma {:induction false} AllClosed(xs: seq<Conn>)
    requires forall i :: 0 <= i < |xs| ==> xs[i].opensGot == xs[i].closesGot
    ensures StillOpen(xs) == 0
  {
    if xs != [] {
      AllClosed(xs[1..]);
    }
  }

  // ---------- what one byte does ----------

  /** Every block sent has one of the lengths in `lens`. */
  ghost predicate Speaks(lens: iset<nat>, s: State) {
    forall i :: 0 <= i < |s.conns| ==> forall k :: 0 <= k < |s.conns[i].sent| ==> s.conns[i].sent[k].len in lens
  }

  /** A run of a client that sends blocks of such lengths only. */
  ghost predicate RunOf(nconns: nat, nopens: nat, lens: iset<nat>, states: seq<State>) {
    Run(nconns, nopens, states) && forall j :: 0 <= j < |states| ==> Speaks(lens, states[j])
  }

  /** Wherever the host has been removed, everything sent on any connection has been read. */
  ghost predicate NeverTooSoon(nconns: nat, nopens: nat, lens: iset<nat>) {
    forall states: seq<State>, j :: RunOf(nconns, nopens, lens, states) && 0 <= j < |states| ==>
      NotTooSoon(nopens, states[j])
  }

  predicate NotTooSoon(nopens: nat, s: State) {
    s.removals > 0 ==> forall i :: 0 <= i < |s.conns| ==> Over(nopens, s.conns[i])
  }

  lemma Prolong(nconns: nat, nopens: nat, lens: iset<nat>, run: seq<State>, t: State) returns (longer: seq<State>)
    requires RunOf(nconns, nopens, lens, run) && Step(nopens, run[|run| - 1], t) && Speaks(lens, t)
    ensures RunOf(nconns, nopens, lens, longer) && longer[|longer| - 1] == t
  {
    longer := run + [t];
    forall i | 0 <= i < |longer| - 1 ensures Step(nopens, longer[i], longer[i + 1]) {
      if i < |run| - 1 {
        assert Step(nopens, run[i], run[i + 1]);
      }
    }
  }

  /** The client acts on connection `i`. */
  lemma Act(nconns: nat, nopens: nat, lens: iset<nat>, run: seq<State>, i: nat, a: Action) returns (longer: seq<State>)
    requires RunOf(nconns, nopens, lens, run)
    requires var s := run[|run| - 1]; i < |s.conns| && ClientCan(nopens, s.go, s.conns[i], a)
    requires a.SendData? ==> a.m.len in lens
    ensures RunOf(nconns, nopens, lens, longer)
    ensures var s := run[|run| - 1];
      longer[|longer| - 1] == s.(conns := s.conns[i := Client(nopens, s.go, s.conns[i], a)])
  {
    var s := run[|run| - 1];
    var t := s.(conns := s.conns[i := Client(nopens, s.go, s.conns[i], a)]);
    assert ClientStep(nopens, s, t, i, a);
    assert Speaks(lens, run[|run| - 1]);
    longer := Prolong(nconns, nopens, lens, run, t);
  }

  /** An accepted connection with `k` opens acknowledged. */
  function Opened(k: nat): Conn {
    Conn(Accepted, Idle(k), [], 0, k, 0, [], [])
  }

  const ABSENT := Conn(Absent, Idle(0), [], 0, 0, 0, [], [])

  lemma OpenOnce(nconns: nat, nopens: nat, lens: iset<nat>, run: seq<State>, i: nat, k: nat)
    returns (longer: seq<State>)
    requires RunOf(nconns, nopens, lens, run) && k < nopens
    requires var s := run[|run| - 1]; i < |s.conns| && s.conns[i] == Opened(k)
    ensures RunOf(nconns, nopens, lens, longer)
    ensures var s := run[|run| - 1];
      longer[|longer| - 1] == s.(conns := s.conns[i := Opened(k + 1)], clOpens := s.clOpens + 1)
  {
    var s := run[|run| - 1];
    longer := Act(nconns, nopens, lens, run, i, SendOpen);
    var x := Client(nopens, s.go, Opened(k), SendOpen);
    var t := longer[|longer| - 1];
    var u := t.(conns := t.conns[i := Received(x)], clOpens := t.clOpens + 1);
    assert x.wire == [OPEN] && ReceiveStep(t, u, i);
    longer := Prolong(nconns, nopens, lens, longer, u);
    longer := Act(nconns, nopens, lens, longer, i, GetAck);
    assert Client(nopens, s.go, Received(x), GetAck) == Opened(k + 1);
    assert s.conns[i := x][i := Received(x)][i := Opened(k + 1)] == s.conns[i := Opened(k + 1)];
  }

  lemma {:induction false} OpenRest(nconns: nat, nopens: nat, lens: iset<nat>, run: seq<State>, i: nat, k: nat)
    returns (longer: seq<State>)
    requires RunOf(nconns, nopens, lens, run) && k <= nopens
    requires var s := run[|run| - 1]; i < |s.conns| && s.conns[i] == Opened(k)
    ensures RunOf(nconns, nopens, lens, longer)
    ensures var s := run[|run| - 1];
      longer[|longer| - 1] == s.(conns := s.conns[i := Opened(nopens)], clOpens := s.clOpens + nopens - k)
    decreases nopens - k
  {
    longer := run;
    var s := run[|run| - 1];
    if k < nopens {
      longer := OpenOnce(nconns, nopens, lens, run, i, k);
      longer := OpenRest(nconns, nopens, lens, longer, i, k + 1);
      assert s.conns[i := Opened(k + 1)][i := Opened(nopens)] == s.conns[i := Opened(nopens)];
    } else {
      assert s.conns[i := Opened(nopens)] == s.conns;
    }
  }

  /** The first `i` connections are open, and nothing else has happened. */
  function OpenedUpTo(nconns: nat, nopens: nat, i: nat, opens: nat): State {
    State(seq(nconns, j => if j < i then Opened(nopens) else ABSENT), false, i > 0, opens, 0)
  }

  lemma OpenNext(nconns: nat, nopens: nat, lens: iset<nat>, run: seq<State>, i: nat, opens: nat)
    returns (longer: seq<State>)
    requires RunOf(nconns, nopens, lens, run) && i < nconns && (i == 0 ==> opens == 0)
    requires run[|run| - 1] == OpenedUpTo(nconns, nopens, i, opens)
    ensures RunOf(nconns, nopens, lens, longer)
    ensures longer[|longer| - 1] == OpenedUpTo(nconns, nopens, i + 1, opens + nopens)
  {
    var s := run[|run| - 1];
    longer := Act(nconns, nopens, lens, run, i, Connect);
    var t := longer[|longer| - 1];
    var u := t.(conns := t.conns[i := Opened(0)], hostUp := true);
    assert t.conns[i].(link := Accepted) == Opened(0);
    assert AcceptStep(t, u, i);
    longer := Prolong(nconns, nopens, lens, longer, u);
    longer := OpenRest(nconns, nopens, lens, longer, i, 0);
    assert s.conns[i := t.conns[i]][i := Opened(0)][i := Opened(nopens)]
        == OpenedUpTo(nconns, nopens, i + 1, opens + nopens).conns;
  }

  lemma {:induction false} OpenAll(nconns: nat, nopens: nat, lens: iset<nat>, run: seq<State>, i: nat, opens: nat)
    returns (longer: seq<State>, all: nat)
    requires RunOf(nconns, nopens, lens, run) && i <= nconns && (i == 0 <==> opens == 0) && nopens >= 1
    requires run[|run| - 1] == OpenedUpTo(nconns, nopens, i, opens)
    ensures RunOf(nconns, nopens, lens, longer) && (nconns > 0 ==> all > 0)
    ensures longer[|longer| - 1] == OpenedUpTo(nconns, nopens, nconns, all)
    decreases nconns - i
  {
    longer, all := run, opens;
    if i < nconns {
      longer := OpenNext(nconns, nopens, lens, run, i, opens);
      longer, all := OpenAll(nconns, nopens, lens, longer, i + 1, opens + nopens);
    }
  }

  /** The client sends data on the first connection, and the server has read it all. */
  predicate FirstRuns(s: State) {
    && |s.conns| > 0 && s.conns[0].phase.Running? && s.conns[0].link == Accepted && s.conns[0].wire == []
    && s.clOpens > 0 && s.removals == 0
  }

  /** One block of one byte on the first connection, read as a close. */
  lemma OneByte(nconns: nat, nopens: nat, lens: iset<nat>, run: seq<State>) returns (longer: seq<State>)
    requires RunOf(nconns, nopens, lens, run) && 1 in lens
    requires FirstRuns(run[|run| - 1])
    ensures RunOf(nconns, nopens, lens, longer)
    ensures var s, t := run[|run| - 1], longer[|longer| - 1];
      if s.clOpens != 1 then FirstRuns(t) && t.clOpens == s.clOpens - 1
      else |t.conns| > 0 && t.conns[0].phase.Running? && t.removals == 1
  {
    longer := Act(nconns, nopens, lens, run, 0, SendData(Msg(1, 0)));
    var t := longer[|longer| - 1];
    var conns := t.conns[0 := Received(t.conns[0])];
    var u := if t.clOpens != 1 then t.(conns := conns, clOpens := t.clOpens - 1)
             else t.(conns := DropAll(conns), clOpens := 0, hostUp := false, removals := 1);
    assert t.conns[0].wire == [Msg(1, 0)];
    assert ReceiveStep(t, u, 0);
    longer := Prolong(nconns, nopens, lens, longer, u);
  }

  lemma {:induction false} Bytes(nconns: nat, nopens: nat, lens: iset<nat>, run: seq<State>)
    returns (longer: seq<State>)
    requires RunOf(nconns, nopens, lens, run) && 1 in lens
    requires FirstRuns(run[|run| - 1])
    ensures RunOf(nconns, nopens, lens, longer)
    ensures var t := longer[|longer| - 1]; |t.conns| > 0 && t.conns[0].phase.Running? && t.removals == 1
    decreases run[|run| - 1].clOpens
  {
    longer := OneByte(nconns, nopens, lens, run);
    if longer[|longer| - 1].removals == 0 {
      longer := Bytes(nconns, nopens, lens, longer);
    }
  }

  /** With blocks of one byte, enough of them on one connection take the host down while its client is running. */
  lemma BytesCloseTheHost(nconns: nat, nopens: nat, lens: iset<nat>) returns (run: seq<State>)
    requires nconns >= 1 && nopens >= 1 && 1 in lens
    ensures RunOf(nconns, nopens, lens, run) && !NotTooSoon(nopens, run[|run| - 1])
  {
    run := [Initial(nconns)];
    assert run[0].conns == OpenedUpTo(nconns, nopens, 0, 0).conns;
    var all;
    run, all := OpenAll(nconns, nopens, lens, run, 0, 0);
    var s := run[|run| - 1];
    assert forall i :: 0 <= i < |s.conns| ==> s.conns[i] == Opened(nopens);
    assert UnblockStep(nopens, s, s.(go := true));
    run := Prolong(nconns, nopens, lens, run, s.(go := true));
    run := Act(nconns, nopens, lens, run, 0, Start);
    assert FirstRuns(run[|run| - 1]);
    run := Bytes(nconns, nopens, lens, run);
    assert !Over(nopens, run[|run| - 1].conns[0]);
  }

  lemma LongBlocksAreSafe(nconns: nat, nopens: nat, lens: iset<nat>, states: seq<State>, j: nat)
    requires nopens >= 1 && 0 !in lens && 1 !in lens && RunOf(nconns, nopens, lens, states) && j < |states|
    ensures NotTooSoon(nopens, states[j])
  {
    forall n | 0 <= n < j ensures AllRegular(states[n].conns) {
      assert Speaks(lens, states[n]);
    }
    RemovedOnlyWhenOver(nconns, nopens, states, j);
  }

  /**
    Whatever lengths the blocks may have, the host is never removed too soon if and only if
    none of them is one.
   */
  lemma NeverTooSoonIff(nconns: nat, nopens: nat, lens: iset<nat>)
    requires nconns >= 1 && nopens >= 1 && 0 !in lens
    ensures NeverTooSoon(nconns, nopens, lens) <==> 1 !in lens
  {
    if 1 in lens {
      var run := BytesCloseTheHost(nconns, nopens, lens);
      assert RunOf(nconns, nopens, lens, run) && 0 <= |run| - 1 < |run|;
    } else {
      forall states: seq<State>, j | RunOf(nconns, nopens, lens, states) && 0 <= j < |states|
        ensures NotTooSoon(nopens, states[j])
      {
        LongBlocksAreSafe(nconns, nopens, lens, states, j);
      }
    }
  }
}

/**
  btreplay: the bunches of a recorded file are read back and submitted, in batches as large
  as the free control blocks allow.
 */
module Playback {
  import opened Common
  import opened TraceApi
  import opened Bunching
  import opened Record

  /** An I/O as it is handed to the kernel. */
  datatype Op = Op(offset: nat, nbytes: nat, read: bool)

  const NB_SEC := 512

  /** The conversion to `int` of a larger unsigned value. */
  function AsInt(n: nat): int {
    if n % TWO_32 < 0x8000_0000 then n % TWO_32 else n % TWO_32 - TWO_32
  }

  /** What the asserts in `iocb_setup` want of a packet: whole sectors, at least one, in reach of a signed offset. */
  predicate Acceptable(p: Pkt) {
    p.rw <= 1 && AsInt(p.nbytes) > 0 && AsInt(p.nbytes) % NB_SEC == 0 && p.sector * NB_SEC % TWO_64 < TWO_64 / 2
  }

  lemma AsIntIs(n: nat)
    ensures -0x8000_0000 <= AsInt(n) < 0x8000_0000 && (n - AsInt(n)) % TWO_32 == 0
  {
  }

  /** Without leave to write, a write becomes a read. */
  function OpOf(p: Pkt, writeEnabled: bool): Op
    requires Acceptable(p)
  {
    Op(p.sector * NB_SEC % TWO_64, AsInt(p.nbytes), p.rw == 1 || !writeEnabled)
  }

  predicate AllAcceptable(ps: seq<Pkt>) {
    forall i :: 0 <= i < |ps| ==> Acceptable(ps[i])
  }

  function OpsOf(ps: seq<Pkt>, writeEnabled: bool): seq<Op>
    requires AllAcceptable(ps)
  {
    seq(|ps|, i requires 0 <= i < |ps| => OpOf(ps[i], writeEnabled))
  }

  // ---------- what the operations have of the traces ----------

  /** Whole sectors, at least one, less than two gigabytes, in reach of a signed offset. */
  predicate CanReplay(t: Trace) {
    0 < t.bytes < 0x8000_0000 && t.bytes % 512 == 0 && t.sector % 0x80_0000_0000_0000 < 0x40_0000_0000_0000
  }

  /** The operation is at the place of the trace, of its size, and a read if that is one or must be. */
  predicate Performs(op: Op, t: Trace, writeEnabled: bool) {
    && op.offset == 512 * (t.sector % 0x80_0000_0000_0000) && op.nbytes == t.bytes
    && (op.read <==> Has(t.action, TC_READ) || !writeEnabled)
  }

  predicate AllCanReplay(ts: seq<Trace>) {
    forall k :: 0 <= k < |ts| ==> CanReplay(ts[k])
  }

  predicate AllPerform(ops: seq<Op>, ts: seq<Trace>, writeEnabled: bool) {
    |ops| == |ts| && forall k :: 0 <= k < |ops| ==> Performs(ops[k], ts[k], writeEnabled)
  }

  predicate InTime(ts: seq<Trace>) {
    forall i, j :: 0 <= i <= j < |ts| ==> ts[i].time <= ts[j].time
  }

  /** Few enough and near enough in time for one bunch. */
  predicate OneBunch(ts: seq<Trace>, maxPkts: nat, maxTm: nat) {
    0 < |ts| <= maxPkts && ts[|ts| - 1].time - ts[0].time <= maxTm
  }

  lemma TimesOfTraces(ios: seq<Io>, ts: seq<Trace>, maxPkts: nat, maxTm: nat)
    requires AllDescribe(ios, ts)
    ensures Ordered(ios) <==> InTime(ts)
    ensures Fits(ios, maxPkts, maxTm) <==> OneBunch(ts, maxPkts, maxTm)
  {
  }

  lemma OffsetWraps(sector: U64)
    ensures sector * 512 % TWO_64 == 512 * (sector % 0x80_0000_0000_0000)
  {
  }

  lemma PacketOfTrace(io: Io, t: Trace, writeEnabled: bool)
    requires Describes(io, t)
    ensures Acceptable(PktOf(io)) <==> CanReplay(t)
    ensures Acceptable(PktOf(io)) ==> Performs(OpOf(PktOf(io), writeEnabled), t, writeEnabled)
  {
    OffsetWraps(t.sector);
  }

  lemma PacketsOfTraces(ios: seq<Io>, ts: seq<Trace>, writeEnabled: bool)
    requires AllDescribe(ios, ts)
    ensures AllAcceptable(PktsOf(ios)) <==> AllCanReplay(ts)
    ensures AllAcceptable(PktsOf(ios)) ==> AllPerform(OpsOf(PktsOf(ios), writeEnabled), ts, writeEnabled)
  {
    forall k | 0 <= k < |ts|
      ensures Acceptable(PktsOf(ios)[k]) <==> CanReplay(ts[k])
      ensures Acceptable(PktsOf(ios)[k]) ==> Performs(OpOf(PktsOf(ios)[k], writeEnabled), ts[k], writeEnabled)
    {
      PacketOfTrace(ios[k], ts[k], writeEnabled);
    }
  }

  // ---------- reading bunches ----------

  datatype Parsed = Eof | Fatal | Got(bunch: Bunch, rest: seq<nat>)

  function PktsIn(w: seq<nat>, n: nat): seq<Pkt>
    requires 3 * n <= |w|
  {
    if n == 0 then [] else [Pkt(w[0], w[1], w[2] % TWO_32)] + PktsIn(w[3..], n - 1)
  }

  /** `next_bunch` on the words that are left. */
  function Parse(w: seq<nat>): Parsed {
    if w == [] then Eof
    else if |w| < 2 || w[0] > BT_MAX_PKTS || |w| - 2 < 3 * w[0] then Fatal
    else Got(Bunch(w[1], PktsIn(w[2..], w[0])), w[2 + 3 * w[0]..])
  }

  predicate Storable(b: Bunch) {
    0 < |b.pkts| <= BT_MAX_PKTS && forall i :: 0 <= i < |b.pkts| ==> b.pkts[i].rw < TWO_32
  }

  lemma {:induction false} PktsRoundTrip(ps: seq<Pkt>, rest: seq<nat>)
    requires forall i :: 0 <= i < |ps| ==> ps[i].rw < TWO_32
    ensures |PktWords(ps)| == 3 * |ps|
    ensures PktsIn(PktWords(ps) + rest, |ps|) == ps && (PktWords(ps) + rest)[3 * |ps|..] == rest
  {
    if ps != [] {
      PktsRoundTrip(ps[1..], rest);
      assert (PktWords(ps) + rest)[3..] == PktWords(ps[1..]) + rest;
    }
  }

  /** What is written for a bunch is read back as that bunch. */
  lemma BunchRoundTrip(b: Bunch, rest: seq<nat>)
    requires Storable(b)
    ensures Parse(BunchWords(b) + rest) == Got(b, rest)
  {
    PktsRoundTrip(b.pkts, rest);
    var w := BunchWords(b) + rest;
    assert w[2..] == PktWords(b.pkts) + rest;
    assert w[2 + 3 * |b.pkts|..] == (PktWords(b.pkts) + rest)[3 * |b.pkts|..];
  }

  /** A bunch of 512 packets can be read, and none of more. */
  lemma LargestBunch(b: Bunch, w: seq<nat>)
    requires |b.pkts| == 512 && forall i :: 0 <= i < |b.pkts| ==> b.pkts[i].rw <= 1
    ensures Parse(BunchWords(b)) == Got(b, [])
    ensures |w| >= 2 && w[0] > 512 ==> Parse(w) == Fatal
  {
    BunchRoundTrip(b, []);
    assert BunchWords(b) + [] == BunchWords(b);
  }

  /** The packets of a whole file; none if the file cannot be read to its end. */
  datatype Decoded = Readable(pkts: seq<Pkt>) | Unreadable

  function Decode(w: seq<nat>): Decoded
    decreases |w|
  {
    match Parse(w)
    case Eof => Readable([])
    case Fatal => Unreadable
    case Got(b, rest) =>
      if b.pkts == [] then Unreadable
      else match Decode(rest)
        case Unreadable => Unreadable
        case Readable(ps) => Readable(b.pkts + ps)
  }

  function Packets(bs: seq<Bunch>): seq<Pkt> {
    if bs == [] then [] else bs[0].pkts + Packets(bs[1..])
  }

  lemma {:induction false} FileRoundTrip(bs: seq<Bunch>)
    requires forall i :: 0 <= i < |bs| ==> Storable(bs[i])
    ensures Decode(Words(bs)) == Readable(Packets(bs))
  {
    if bs != [] {
      FileRoundTrip(bs[1..]);
      BunchRoundTrip(bs[0], Words(bs[1..]));
    }
  }

  lemma {:induction false} PacketsOfRuns(parts: seq<seq<Io>>)
    ensures Packets(BunchesOf(parts)) == PktsOf(Flatten(parts))
  {
    if parts != [] {
      PacketsOfRuns(parts[1..]);
      assert BunchesOf(parts)[1..] == BunchesOf(parts[1..]);
    }
  }

  /** However the limits cut the queue traces, the recorded file holds their packets in their order. */
  lemma RecordedReadsBack(ios: seq<Io>, genesis: nat, maxPkts: nat, maxTm: nat)
    requires 1 <= maxPkts <= BT_MAX_PKTS
    ensures Decode(Recorded(ios, genesis, maxPkts, maxTm).body) == Readable(PktsOf(ios))
  {
    var parts := Greedy(ios, maxPkts, maxTm);
    GreedyIsCut(ios, maxPkts, maxTm);
    forall i | 0 <= i < |parts| ensures Storable(BunchesOf(parts)[i]) {
      assert Fits(parts[i], maxPkts, maxTm);
    }
    FileRoundTrip(BunchesOf(parts));
    PacketsOfRuns(parts);
  }

  /** A packet as it is on file, with the fields of a trace. */
  predicate Holds(p: Pkt, t: Trace) {
    p.sector == t.sector && p.nbytes == t.bytes && p.rw == if Has(t.action, TC_READ) then 1 else 0
  }

  /** The file holds the place, size and direction of every queue trace, in their order. */
  lemma TracesReadBack(traces: seq<Trace>, genesis: nat, maxPkts: nat, maxTm: nat) returns (ps: seq<Pkt>)
    requires 1 <= maxPkts <= BT_MAX_PKTS
    ensures Decode(Recorded(Queued(traces), genesis, maxPkts, maxTm).body) == Readable(ps)
    ensures |ps| == |QueueTraces(traces)| && forall k :: 0 <= k < |ps| ==> Holds(ps[k], QueueTraces(traces)[k])
  {
    RecordedReadsBack(Queued(traces), genesis, maxPkts, maxTm);
    QueuedDescribe(traces);
    ps := PktsOf(Queued(traces));
    forall k | 0 <= k < |ps| ensures Holds(ps[k], QueueTraces(traces)[k]) {
      assert Describes(Queued(traces)[k], QueueTraces(traces)[k]);
    }
  }

  // ---------- submitting ----------

  /** How many control blocks each `nfree_current` finds; it waits for at least one. */
  ghost predicate Supply(nfree: nat -> nat, naios: nat) {
    forall turn :: 1 <= nfree(turn) <= naios
  }

  /** Batch `k` takes all blocks of its turn, or all that is left of the bunch. */
  ghost predicate TakesAll(batches: seq<seq<Op>>, k: nat, total: nat, nfree: nat -> nat, first: nat)
    requires k < |batches|
  {
    |batches[k]| == Min(nfree(first + k), total - |Flatten(batches[..k])|)
  }

  ghost predicate Supplied(batches: seq<seq<Op>>, total: nat, nfree: nat -> nat, first: nat) {
    forall k :: 0 <= k < |batches| ==> TakesAll(batches, k, total, nfree, first)
  }

  lemma SupplyMore(batches: seq<seq<Op>>, batch: seq<Op>, total: nat, nfree: nat -> nat, first: nat)
    requires Supplied(batches, total, nfree, first)
    requires |batch| == Min(nfree(first + |batches|), total - |Flatten(batches)|)
    ensures Supplied(batches + [batch], total, nfree, first)
  {
    var more := batches + [batch];
    forall k | 0 <= k < |more| ensures TakesAll(more, k, total, nfree, first) {
      if k < |batches| {
        assert TakesAll(batches, k, total, nfree, first);
        assert more[..k] == batches[..k];
      } else {
        assert more[..k] == batches;
      }
    }
  }

  /** No batch has more operations than there were free blocks in its turn. */
  ghost predicate WithinSupply(batches: seq<seq<Op>>, nfree: nat -> nat, first: nat) {
    forall k :: 0 <= k < |batches| ==> 0 < |batches[k]| <= nfree(first + k)
  }

  lemma WithinMore(batches: seq<seq<Op>>, more: seq<seq<Op>>, nfree: nat -> nat)
    requires WithinSupply(batches, nfree, 0) && WithinSupply(more, nfree, |batches|)
    ensures WithinSupply(batches + more, nfree, 0)
  {
    forall k | 0 <= k < |batches + more| ensures 0 < |(batches + more)[k]| <= nfree(0 + k) {
      if k >= |batches| {
        assert (batches + more)[k] == more[k - |batches|];
        assert 0 < |more[k - |batches|]| <= nfree(|batches| + (k - |batches|));
      }
    }
  }

  lemma AcceptMore(ps: seq<Pkt>, i: nat, n: nat)
    requires i + n <= |ps| && AllAcceptable(ps[..i])
    ensures AllAcceptable(ps[i..i + n]) <==> AllAcceptable(ps[..i + n])
    ensures !AllAcceptable(ps[i..i + n]) ==> !AllAcceptable(ps)
  {
    assert ps[..i + n] == ps[..i] + ps[i..i + n];
    assert ps == ps[..i + n] + ps[i + n..];
  }

  lemma OpsAppend(ps: seq<Pkt>, i: nat, n: nat, writeEnabled: bool)
    requires i + n <= |ps| && AllAcceptable(ps[..i + n]) && AllAcceptable(ps[..i]) && AllAcceptable(ps[i..i + n])
    ensures OpsOf(ps[..i + n], writeEnabled) == OpsOf(ps[..i], writeEnabled) + OpsOf(ps[i..i + n], writeEnabled)
  {
    assert ps[..i + n] == ps[..i] + ps[i..i + n];
  }

  /** `iocbs_map`: fails where an assert of `iocb_setup` does. */
  method IocbsMap(pkts: seq<Pkt>, writeEnabled: bool) returns (ok: bool, list: seq<Op>)
    ensures ok <==> AllAcceptable(pkts)
    ensures ok ==> list == OpsOf(pkts, writeEnabled)
  {
    list := [];
    for i := 0 to |pkts|
      invariant AllAcceptable(pkts[..i]) && list == OpsOf(pkts[..i], writeEnabled)
    {
      var pkt := pkts[i];
      var rw := pkt.rw;
      if rw == 0 && !writeEnabled {
        rw := 1;
      }
      var n, off := AsInt(pkt.nbytes), pkt.sector * NB_SEC % TWO_64;
      if !((rw == 0 || rw == 1) && 0 < n && n % NB_SEC == 0 && off < TWO_64 / 2) {
        assert !Acceptable(pkts[i]);
        return false, [];
      }
      list := list + [Op(off, n, rw != 0)];
      assert pkts[..i + 1] == pkts[..i] + [pkt];
    }
    assert pkts[..|pkts|] == pkts;
    ok := true;
  }

  /** `process_bunch`, with one `nfree_current` for each batch. */
  method ProcessBunch(pkts: seq<Pkt>, naios: nat, nfree: nat -> nat, first: nat, writeEnabled: bool)
    returns (ok: bool, batches: seq<seq<Op>>)
    requires Supply(nfree, naios)
    ensures ok <==> 0 < |pkts| <= BT_MAX_PKTS && AllAcceptable(pkts)
    ensures ok ==> Flatten(batches) == OpsOf(pkts, writeEnabled)
    ensures ok ==> Supplied(batches, |pkts|, nfree, first) && WithinSupply(batches, nfree, first)
  {
    batches := [];
    if !(0 < |pkts| <= BT_MAX_PKTS) {
      return false, [];
    }
    var i := 0;
    while i < |pkts|
      invariant i <= |pkts| && AllAcceptable(pkts[..i]) && Flatten(batches) == OpsOf(pkts[..i], writeEnabled)
      invariant Supplied(batches, |pkts|, nfree, first) && WithinSupply(batches, nfree, first)
    {
      var free := nfree(first + |batches|);
      var ntodo := Min(free, |pkts| - i);
      var mapped, list := IocbsMap(pkts[i..i + ntodo], writeEnabled);
      AcceptMore(pkts, i, ntodo);
      if !mapped {
        return false, [];
      }
      OpsAppend(pkts, i, ntodo, writeEnabled);
      SupplyMore(batches, list, |pkts|, nfree, first);
      FlattenAppend(batches, [list]);
      FlattenOne(list);
      batches := batches + [list];
      i := i + ntodo;
    }
    assert pkts[..|pkts|] == pkts;
    ok := true;
  }

  /** One pass of `replay_sub` over the words behind the file header, with no signal to stop it. */
  method Pass(body: seq<nat>, naios: nat, nfree: nat -> nat, writeEnabled: bool)
    returns (ok: bool, batches: seq<seq<Op>>)
    requires Supply(nfree, naios)
    ensures ok <==> Decode(body).Readable? && AllAcceptable(Decode(body).pkts)
    ensures ok ==> Flatten(batches) == OpsOf(Decode(body).pkts, writeEnabled)
    ensures ok ==> WithinSupply(batches, nfree, 0)
  {
    batches := [];
    var left := body;
    ghost var sent: seq<Pkt> := [];
    while true
      invariant AllAcceptable(sent) && Flatten(batches) == OpsOf(sent, writeEnabled)
      invariant Decode(body) == After(sent, Decode(left))
      invariant WithinSupply(batches, nfree, 0)
      decreases |left|
    {
      var next := Parse(left);
      match next
      case Eof => break;
      case Fatal => return false, [];
      case Got(bunch, rest) =>
        var some, more := ProcessBunch(bunch.pkts, naios, nfree, |batches|, writeEnabled);
        if !some {
          BadBunch(sent, left);
          return false, [];
        }
        WithinMore(batches, more, nfree);
        FlattenAppend(batches, more);
        SendMore(sent, bunch.pkts, Decode(rest), writeEnabled);
        batches := batches + more;
        sent := sent + bunch.pkts;
        left := rest;
    }
    assert sent + [] == sent;
    ok := true;
  }

  function After(sent: seq<Pkt>, d: Decoded): Decoded {
    match d
    case Unreadable => Unreadable
    case Readable(ps) => Readable(sent + ps)
  }

  lemma SendMore(sent: seq<Pkt>, ps: seq<Pkt>, d: Decoded, writeEnabled: bool)
    requires AllAcceptable(sent) && AllAcceptable(ps)
    ensures After(sent, After(ps, d)) == After(sent + ps, d)
    ensures OpsOf(sent + ps, writeEnabled) == OpsOf(sent, writeEnabled) + OpsOf(ps, writeEnabled)
  {
    if d.Readable? {
      assert sent + (ps + d.pkts) == sent + ps + d.pkts;
    }
  }

  lemma {:induction false} ParsedSize(w: seq<nat>, n: nat)
    requires 3 * n <= |w|
    ensures |PktsIn(w, n)| == n
  {
    if n > 0 {
      ParsedSize(w[3..], n - 1);
    }
  }

  lemma BadBunch(sent: seq<Pkt>, left: seq<nat>)
    requires Parse(left).Got?
    requires var ps := Parse(left).bunch.pkts; !(0 < |ps| <= BT_MAX_PKTS && AllAcceptable(ps))
    ensures var d := After(sent, Decode(left)); !(d.Readable? && AllAcceptable(d.pkts))
  {
    var ps := Parse(left).bunch.pkts;
    ParsedSize(left[2..], left[0]);
    if ps != [] && Decode(left).Readable? {
      var k :| 0 <= k < |ps| && !Acceptable(ps[k]);
      assert After(sent, Decode(left)).pkts[|sent| + k] == ps[k];
    }
  }

  // ---------- from the traces to the kernel ----------

  datatype Replayed = RecordAborts | Skipped | ReplayAborts | Submitted(batches: seq<seq<Op>>)

  /**
    btrecord on a trace file, then one pass of btreplay on what it wrote.  Replay skips the
    file if its header counts no bunch, which leaves out the last one.
   */
  method RecordThenReplay(traces: seq<Trace>, maxPkts: nat, maxTm: U64, naios: nat,
                          nfree: nat -> nat, writeEnabled: bool)
    returns (r: Replayed)
    requires 1 <= maxPkts <= BT_MAX_PKTS && Supply(nfree, naios)
    ensures var ios := Queued(traces);
      && (r.RecordAborts? <==> !Ordered(ios))
      && (r.Skipped? <==> Ordered(ios) && (ios == [] || Fits(ios, maxPkts, maxTm)))
      && (r.ReplayAborts? ==> !AllAcceptable(PktsOf(ios)))
      && (r.Submitted? ==> AllAcceptable(PktsOf(ios)) && Flatten(r.batches) == OpsOf(PktsOf(ios), writeEnabled))
    ensures var ts := QueueTraces(traces);
      && (r.RecordAborts? <==> !InTime(ts))
      && (r.Skipped? <==> InTime(ts) && (ts == [] || OneBunch(ts, maxPkts, maxTm)))
      && (r.ReplayAborts? ==> !AllCanReplay(ts))
      && (r.Submitted? ==> AllCanReplay(ts) && AllPerform(Flatten(r.batches), ts, writeEnabled))
    ensures r.Submitted? ==> WithinSupply(r.batches, nfree, 0)
  {
    ghost var ios := Queued(traces);
    QueuedDescribe(traces);
    PacketsOfTraces(ios, QueueTraces(traces), writeEnabled);
    TimesOfTraces(ios, QueueTraces(traces), maxPkts, maxTm);
    var recorded := Process(traces, maxPkts, maxTm);
    if recorded.Aborted? {
      return RecordAborts;
    }
    OneIsEnough(ios, maxPkts, maxTm);
    RecordedReadsBack(ios, Genesis(ios), maxPkts, maxTm);
    if recorded.file.hdr.nbunches == 0 {
      return Skipped;
    }
    var ok, batches := Pass(recorded.file.body, naios, nfree, writeEnabled);
    r := if ok then Submitted(batches) else ReplayAborts;
  }

  /** A single trace is recorded but never replayed. */
  lemma SingleTraceIsSkipped(io: Io, maxPkts: nat, maxTm: nat)
    requires maxPkts >= 1
    ensures Recorded([io], io.time, maxPkts, maxTm).hdr.nbunches == 0
    ensures Recorded([io], io.time, maxPkts, maxTm).body == BunchWords(BunchOf([io])) != []
  {
    GreedyOfOne(io, maxPkts, maxTm);
    FiledAppend([], [io]);
    assert [] + [[io]] == [[io]] && Filed([]) == [];
  }
}

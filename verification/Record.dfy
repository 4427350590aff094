/**
  btrecord: the queue traces of one input file go, bunch by bunch, into one output file.
 */
module Record {
  import opened Common
  import opened TraceApi
  import opened Bunching

  const BT_VERSION := 0x10000

  /** A record of the input file. */
  datatype Trace = Trace(time: U64, sector: U64, bytes: U32, action: bv32)

  /** `match`: a queue trace and nothing else. */
  predicate Matches(action: bv32) {
    action & 0xffff == 1 && action & 0x10_0000 != 0
  }

  /** What `next_io` makes of a record that matches. */
  function SpecOf(t: Trace): Io {
    Io(t.time, t.sector, t.bytes, if t.action & 0x1_0000 != 0 then 1 else 0)
  }

  function Queued(ts: seq<Trace>): seq<Io> {
    if ts == [] then []
    else (if Matches(ts[0].action) then [SpecOf(ts[0])] else []) + Queued(ts[1..])
  }

  /** Of the actions of a request only the queueing matches, in whatever direction. */
  lemma OnlyQueueingMatches(extra: bv32)
    requires Masked(extra)
    ensures Matches(TA_QUEUE | extra)
    ensures !Matches(TA_BACKMERGE | extra) && !Matches(TA_FRONTMERGE | extra)
    ensures !Matches(TA_GETRQ | extra) && !Matches(TA_SLEEPRQ | extra) && !Matches(TA_REQUEUE | extra)
    ensures !Matches(TA_ISSUE | extra) && !Matches(TA_COMPLETE | extra)
  {
  }

  /** Whatever the event and the categories are: it has to be the queueing, and of that category. */
  lemma MatchesIff(event: bv32, extra: bv32)
    requires event <= 0xffff && extra & 0xffff == 0
    ensures Matches(event | extra) <==> event == 1 && Has(extra, TC_QUEUE)
  {
    assert Act(TC_QUEUE) == 0x10_0000;
    assert (event | extra) & 0xffff == event;
    assert (event | extra) & 0x10_0000 == extra & 0x10_0000;
  }

  function QueueTraces(ts: seq<Trace>): seq<Trace> {
    if ts == [] then []
    else (if Matches(ts[0].action) then [ts[0]] else []) + QueueTraces(ts[1..])
  }

  /** `io` has the fields of `t`, and 1 for a read. */
  predicate Describes(io: Io, t: Trace) {
    io.time == t.time && io.sector == t.sector && io.bytes == t.bytes
    && io.rw == if Has(t.action, TC_READ) then 1 else 0
  }

  predicate AllDescribe(ios: seq<Io>, ts: seq<Trace>) {
    |ios| == |ts| && forall k :: 0 <= k < |ios| ==> Describes(ios[k], ts[k])
  }

  lemma SpecDescribes(t: Trace)
    ensures Describes(SpecOf(t), t)
  {
    assert Act(TC_READ) == 0x1_0000;
  }

  lemma {:induction false} QueuedDescribe(ts: seq<Trace>)
    ensures AllDescribe(Queued(ts), QueueTraces(ts))
  {
    if ts != [] {
      QueuedDescribe(ts[1..]);
      SpecDescribes(ts[0]);
    }
  }

  // ---------- the output file ----------

  datatype Pkt = Pkt(sector: nat, nbytes: nat, rw: nat)
  datatype Bunch = Bunch(timeStamp: nat, pkts: seq<Pkt>)
  datatype FileHdr = FileHdr(version: nat, genesis: nat, nbunches: nat, totalPkts: nat)
  datatype File = File(hdr: FileHdr, body: seq<nat>)

  function PktOf(io: Io): Pkt {
    Pkt(io.sector, io.bytes, io.rw)
  }

  function PktsOf(run: seq<Io>): seq<Pkt> {
    seq(|run|, i requires 0 <= i < |run| => PktOf(run[i]))
  }

  /** A bunch carries the time of its first trace. */
  function BunchOf(run: seq<Io>): Bunch {
    Bunch(if run == [] then 0 else run[0].time, PktsOf(run))
  }

  function BunchesOf(parts: seq<seq<Io>>): seq<Bunch> {
    seq(|parts|, i requires 0 <= i < |parts| => BunchOf(parts[i]))
  }

  /** `struct io_pkt` is three words, `struct io_bunch_hdr` is two. */
  function PktWords(ps: seq<Pkt>): seq<nat> {
    if ps == [] then [] else [ps[0].sector, ps[0].nbytes, ps[0].rw] + PktWords(ps[1..])
  }

  function BunchWords(b: Bunch): seq<nat> {
    [|b.pkts|, b.timeStamp] + PktWords(b.pkts)
  }

  function Words(bs: seq<Bunch>): seq<nat> {
    if bs == [] then [] else BunchWords(bs[0]) + Words(bs[1..])
  }

  lemma {:induction false} WordsAppend(bs: seq<Bunch>, b: Bunch)
    ensures Words(bs + [b]) == Words(bs) + BunchWords(b)
  {
    if bs == [] {
      assert [b][1..] == [] && Words([]) == [];
    } else {
      WordsAppend(bs[1..], b);
      assert (bs + [b])[1..] == bs[1..] + [b];
    }
  }

  /** What is on file when the runs in `parts` are. */
  function Filed(parts: seq<seq<Io>>): seq<nat> {
    Words(BunchesOf(parts))
  }

  lemma FiledAppend(parts: seq<seq<Io>>, run: seq<Io>)
    ensures Filed(parts + [run]) == Filed(parts) + BunchWords(BunchOf(run))
    ensures |Flatten(parts + [run])| == |Flatten(parts)| + |run|
  {
    assert BunchesOf(parts + [run]) == BunchesOf(parts) + [BunchOf(run)];
    WordsAppend(BunchesOf(parts), BunchOf(run));
    FlattenAppend(parts, [run]);
    FlattenOne(run);
  }

  /** The output file for the queue traces `ios`: all bunches, and a header that leaves out the last. */
  function Recorded(ios: seq<Io>, genesis: nat, maxPkts: nat, maxTm: nat): File
    requires maxPkts >= 1
  {
    var parts := Greedy(ios, maxPkts, maxTm);
    var counted := if parts == [] then [] else parts[..|parts| - 1];
    File(FileHdr(BT_VERSION, genesis, |counted|, |Flatten(counted)|), Filed(parts))
  }

  /** All runs but the last are on file, and the last is in `cur`. */
  ghost predicate Collecting(parts: seq<seq<Io>>, body: seq<nat>, bunches: nat, pkts: nat, startTime: U64, cur: Bunch) {
    && parts != []
    && var done, run := parts[..|parts| - 1], parts[|parts| - 1];
       && body == Filed(done) && bunches == |done| && pkts == |Flatten(done)|
       && run != [] && startTime == run[0].time && cur == BunchOf(run)
  }

  /** The same once `io` is added to `cur`. */
  ghost predicate Ready(parts: seq<seq<Io>>, body: seq<nat>, bunches: nat, pkts: nat,
                        startTime: U64, cur: Bunch, io: Io) {
    Collecting(parts, body, bunches, pkts, startTime, cur.(pkts := cur.pkts + [PktOf(io)]))
  }

  lemma BunchGrows(run: seq<Io>, io: Io)
    requires run != []
    ensures BunchOf(run + [io]) == BunchOf(run).(pkts := BunchOf(run).pkts + [PktOf(io)])
    ensures BunchOf([io]) == Bunch(io.time, [PktOf(io)])
  {
    assert PktsOf(run + [io]) == PktsOf(run) + [PktOf(io)];
  }

  /** The three ways in which a trace is added keep to the greedy cut. */
  lemma CollectFirst(io: Io)
    ensures Ready([[io]], [], 0, 0, io.time, Bunch(io.time, []), io)
  {
    BunchGrows([io], io);
  }

  lemma CollectNext(parts: seq<seq<Io>>, body: seq<nat>, bunches: nat, pkts: nat, startTime: U64, cur: Bunch, io: Io,
                    maxPkts: nat, maxTm: nat)
    requires Collecting(parts, body, bunches, pkts, startTime, cur)
    requires |cur.pkts| >= maxPkts || io.time - startTime > maxTm
    ensures |cur.pkts| > 0
    ensures Ready(Joined(parts, io, maxPkts, maxTm), body + BunchWords(cur), bunches + 1, pkts + |cur.pkts|, io.time,
                  Bunch(io.time, []), io)
  {
    var done, run := parts[..|parts| - 1], parts[|parts| - 1];
    BunchGrows(run, io);
    FiledAppend(done, run);
    assert done + [run] == parts == (parts + [[io]])[..|parts|];
  }

  lemma CollectSame(parts: seq<seq<Io>>, body: seq<nat>, bunches: nat, pkts: nat, startTime: U64, cur: Bunch, io: Io,
                    maxPkts: nat, maxTm: nat)
    requires Collecting(parts, body, bunches, pkts, startTime, cur)
    requires |cur.pkts| < maxPkts && io.time - startTime <= maxTm
    ensures Ready(Joined(parts, io, maxPkts, maxTm), body, bunches, pkts, startTime, cur, io)
  {
    var done, run := parts[..|parts| - 1], parts[|parts| - 1];
    BunchGrows(run, io);
    assert (done + [run + [io]])[..|done|] == done;
  }

  /** `struct io_bunch`, a header and a fixed array of packets. */
  class IoBunch {
    var npkts: nat
    var timeStamp: U64
    const pkts: array<Pkt>

    ghost predicate Valid()
      reads this
    {
      pkts.Length == BT_MAX_PKTS && npkts <= BT_MAX_PKTS
    }

    ghost function Abs(): Bunch
      reads this, pkts
      requires Valid()
    {
      Bunch(timeStamp, pkts[..npkts])
    }

    constructor (startTime: U64)
      ensures Valid() && Abs() == Bunch(startTime, []) && fresh(pkts)
    {
      npkts, timeStamp := 0, startTime;
      pkts := new Pkt[BT_MAX_PKTS](_ => Pkt(0, 0, 0));
      new;
      assert pkts[..0] == [];
    }

    method Push(iop: Pkt)
      requires Valid() && npkts < BT_MAX_PKTS
      modifies this, pkts
      ensures Valid() && Abs() == old(Abs()).(pkts := old(Abs()).pkts + [iop])
    {
      pkts[npkts] := iop;
      npkts := npkts + 1;
    }
  }

  /** `struct io_stream`: the output file and the bunch that is being collected. */
  class IoStream {
    const maxPkts: nat
    const maxTm: U64
    var cur: IoBunch?
    var startTime: U64
    var lastTime: U64
    var bunches: nat
    var pkts: nat
    var body: seq<nat>
    ghost var seen: seq<Io>

    ghost function Parts(): seq<seq<Io>>
      reads this
      requires maxPkts >= 1
    {
      Greedy(seen, maxPkts, maxTm)
    }

    ghost predicate Valid()
      reads this, cur, if cur == null then {} else {cur.pkts}
    {
      && 1 <= maxPkts <= BT_MAX_PKTS && Ordered(seen)
      && (cur == null <==> seen == [])
      && if cur == null then body == [] && bunches == 0 && pkts == 0 && lastTime == 0
         else
           && startTime <= lastTime == seen[|seen| - 1].time && cur.Valid()
           && Collecting(Parts(), body, bunches, pkts, startTime, cur.Abs())
    }

    /** `stream_open` */
    constructor (maxPkts: nat, maxTm: U64)
      requires 1 <= maxPkts <= BT_MAX_PKTS
      ensures Valid() && seen == [] && this.maxPkts == maxPkts && this.maxTm == maxTm
    {
      this.maxPkts, this.maxTm := maxPkts, maxTm;
      cur, startTime, lastTime, bunches, pkts, body, seen := null, 0, 0, 0, 0, [], [];
    }

    /** `stream_flush`: what is in `cur` goes to the file. */
    method Flush()
      requires cur != null && cur.Valid()
      modifies `body, `bunches, `pkts
      ensures var b := cur.Abs();
        if |b.pkts| == 0 then body == old(body) && bunches == old(bunches) && pkts == old(pkts)
        else body == old(body) + BunchWords(b) && bunches == old(bunches) + 1 && pkts == old(pkts) + |b.pkts|
    {
      if cur.npkts != 0 {
        body := body + BunchWords(Bunch(cur.timeStamp, cur.pkts[..cur.npkts]));
        bunches := bunches + 1;
        pkts := pkts + cur.npkts;
      }
    }

    /** `bunch_done`, with its unsigned difference. */
    predicate BunchDone(spec: Io): (done: bool)
      reads this, cur
      requires cur != null
      ensures startTime <= spec.time ==> (done <==> cur.npkts >= maxPkts || spec.time - startTime > maxTm)
    {
      cur.npkts >= maxPkts || (spec.time - startTime) % TWO_64 > maxTm
    }

    /** `io_bunch_create` */
    method BunchCreate(startTime: U64)
      modifies `cur, `startTime
      ensures cur != null && fresh(cur) && fresh(cur.pkts) && cur.Valid()
      ensures this.startTime == startTime && cur.Abs() == Bunch(startTime, [])
    {
      this.startTime := startTime;
      cur := new IoBunch(startTime);
    }

    /** `io_bunch_add`; where the asserts of the original stop the program, the result is false. */
    method BunchAdd(spec: Io, ghost parts: seq<seq<Io>>) returns (ok: bool)
      requires cur != null && cur.Valid()
      modifies `lastTime, cur, cur.pkts
      ensures cur.Valid()
      ensures ok <==> old(cur.npkts) < BT_MAX_PKTS && (old(lastTime) == 0 || old(lastTime) <= spec.time)
      ensures ok ==> lastTime == spec.time && cur.Abs() == old(cur.Abs()).(pkts := old(cur.Abs()).pkts + [PktOf(spec)])
      ensures ok && old(Ready(parts, body, bunches, pkts, startTime, cur.Abs(), spec)) ==>
        Collecting(parts, body, bunches, pkts, startTime, cur.Abs())
    {
      if cur.npkts >= BT_MAX_PKTS || !(lastTime == 0 || lastTime <= spec.time) {
        return false;
      }
      cur.Push(PktOf(spec));
      lastTime := spec.time;
      ok := true;
    }

    /** The first half of `stream_add_io`: a bunch that can take the trace. */
    method Place(spec: Io, ghost parts: seq<seq<Io>>)
      requires Valid() && parts == Joined(Parts(), spec, maxPkts, maxTm)
      modifies `cur, `startTime, `body, `bunches, `pkts
      ensures cur != null && cur.Valid() && (cur == old(cur) || (fresh(cur) && fresh(cur.pkts)))
      ensures cur.npkts < BT_MAX_PKTS
      ensures (seen == [] || lastTime <= spec.time) ==>
        startTime <= spec.time && Ready(parts, body, bunches, pkts, startTime, cur.Abs(), spec)
    {
      if cur == null {
        BunchCreate(spec.time);
        CollectFirst(spec);
      } else if BunchDone(spec) {
        if lastTime <= spec.time {
          CollectNext(Parts(), body, bunches, pkts, startTime, cur.Abs(), spec, maxPkts, maxTm);
        }
        Flush();
        BunchCreate(spec.time);
      } else if lastTime <= spec.time {
        CollectSame(Parts(), body, bunches, pkts, startTime, cur.Abs(), spec, maxPkts, maxTm);
      }
    }

    /** `stream_add_io`: fails on a time that runs backwards, and on nothing else. */
    method AddIo(spec: Io) returns (ok: bool)
      requires Valid()
      modifies this, cur, if cur == null then {} else {cur.pkts}
      ensures ok <==> Ordered(old(seen) + [spec])
      ensures cur != null && (cur == old(cur) || (fresh(cur) && fresh(cur.pkts)))
      ensures ok ==> Valid() && seen == old(seen) + [spec]
    {
      ghost var more := seen + [spec];
      ghost var parts := Joined(Parts(), spec, maxPkts, maxTm);
      assert Ordered(more) <==> seen == [] || lastTime <= spec.time by {
        OrderedAppend(seen, spec);
      }
      assert Greedy(more, maxPkts, maxTm) == parts by {
        GreedyAfter(seen, spec, maxPkts, maxTm);
      }
      Place(spec, parts);
      ok := BunchAdd(spec, parts);
      seen := more;
    }

    /** `stream_close`: the header is made up before the last bunch is flushed. */
    method Close(genesis: nat) returns (file: File)
      requires Valid()
      modifies `body, `bunches, `pkts
      ensures file == Recorded(seen, genesis, maxPkts, maxTm)
    {
      var hdr := FileHdr(BT_VERSION, genesis, bunches, pkts);
      if cur != null {
        CloseLast(Parts(), body, bunches, pkts, startTime, cur.Abs());
        Flush();
      }
      file := File(hdr, body);
    }
  }

  lemma CloseLast(parts: seq<seq<Io>>, body: seq<nat>, bunches: nat, pkts: nat, startTime: U64, cur: Bunch)
    requires Collecting(parts, body, bunches, pkts, startTime, cur)
    ensures |cur.pkts| > 0 && body + BunchWords(cur) == Filed(parts)
  {
    var done, run := parts[..|parts| - 1], parts[|parts| - 1];
    FiledAppend(done, run);
    assert done + [run] == parts;
  }

  lemma OrderedAppend(ios: seq<Io>, io: Io)
    requires Ordered(ios)
    ensures Ordered(ios + [io]) <==> ios == [] || ios[|ios| - 1].time <= io.time
  {
    var more := ios + [io];
    if ios != [] {
      assert more[|ios| - 1] == ios[|ios| - 1] && more[|ios|] == io;
    }
  }

  lemma GreedyAfter(ios: seq<Io>, io: Io, maxPkts: nat, maxTm: nat)
    requires maxPkts >= 1
    ensures forall i :: 0 <= i < |Greedy(ios, maxPkts, maxTm)| ==> Greedy(ios, maxPkts, maxTm)[i] != []
    ensures Greedy(ios + [io], maxPkts, maxTm) == Joined(Greedy(ios, maxPkts, maxTm), io, maxPkts, maxTm)
  {
    RunsNotEmpty(ios, maxPkts, maxTm);
    GreedyOnline(ios, io, maxPkts, maxTm);
  }

  // ---------- the input file ----------

  datatype Fetched = EndOfFile | TimeInversion | Next(spec: Io)

  /** The first time that is not zero. */
  function Genesis(ios: seq<Io>): nat {
    if ios == [] then 0 else if ios[0].time != 0 then ios[0].time else Genesis(ios[1..])
  }

  lemma {:induction false} GenesisAppend(ios: seq<Io>, io: Io)
    ensures Genesis(ios + [io]) == if Genesis(ios) != 0 then Genesis(ios) else io.time
    ensures Genesis(ios) > io.time ==> !Ordered(ios + [io])
  {
    if ios == [] {
      assert Genesis([]) == 0 && [io][1..] == [];
    } else {
      var more := ios + [io];
      assert more[0] == ios[0] && more[1..] == ios[1..] + [io] && more[|ios|] == io;
      GenesisAppend(ios[1..], io);
    }
  }

  /** `struct ifile_info`: whole records, read in order. */
  class IfileInfo {
    const traces: seq<Trace>
    var pos: nat
    var tpkts: nat
    var genesis: nat

    constructor (traces: seq<Trace>)
      ensures this.traces == traces && pos == 0 && genesis == 0
    {
      this.traces, pos, tpkts, genesis := traces, 0, 0, 0;
    }

    /** What is still to be found in the file. */
    function Left(): seq<Io>
      reads this
      requires pos <= |traces|
    {
      Queued(traces[pos..])
    }

    /** `next_io`: skips what does not match. */
    method NextIo() returns (r: Fetched)
      requires pos <= |traces|
      modifies this
      ensures old(pos) <= pos <= |traces|
      ensures r.EndOfFile? ==> old(Left()) == [] && genesis == old(genesis)
      ensures r.TimeInversion? ==> |old(Left())| > 0 && old(genesis) > old(Left())[0].time
      ensures r.Next? ==> old(Left()) == [r.spec] + Left() && old(pos) < pos
      ensures r.Next? ==>
        old(genesis) <= r.spec.time && genesis == if old(genesis) == 0 then r.spec.time else old(genesis)
    {
      while pos < |traces|
        invariant old(pos) <= pos <= |traces| && Left() == old(Left()) && genesis == old(genesis)
        decreases |traces| - pos
      {
        var t := traces[pos];
        assert traces[pos..][1..] == traces[pos + 1..];
        pos := pos + 1;
        tpkts := tpkts + 1;
        if Matches(t.action) {
          var spec := SpecOf(t);
          if genesis == 0 {
            genesis := spec.time;
          } else if genesis > spec.time {
            return TimeInversion;
          }
          return Next(spec);
        }
      }
      r := EndOfFile;
    }
  }

  datatype Outcome = Done(file: File) | Aborted
  datatype Fed = More | Exhausted | Broken

  lemma OrderedPrefix(ios: seq<Io>, io: Io, rest: seq<Io>)
    requires !Ordered(ios + [io])
    ensures !Ordered(ios + ([io] + rest))
  {
    var a, b := ios + [io], ios + ([io] + rest);
    assert b[..|a|] == a;
    assert forall i :: 0 <= i < |a| ==> a[i] == b[i];
  }

  /** A trace older than the first is not in order. */
  lemma Inverted(seen: seq<Io>, left: seq<Io>)
    requires left != [] && Genesis(seen) > left[0].time
    ensures !Ordered(seen + left)
  {
    GenesisAppend(seen, left[0]);
    assert left == [left[0]] + left[1..];
    OrderedPrefix(seen, left[0], left[1..]);
  }

  lemma NextOfAll(seen: seq<Io>, io: Io, rest: seq<Io>)
    ensures seen + ([io] + rest) == seen + [io] + rest
    ensures !Ordered(seen + [io]) ==> !Ordered(seen + ([io] + rest))
    ensures Genesis(seen + [io]) == if Genesis(seen) == 0 then io.time else Genesis(seen)
  {
    GenesisAppend(seen, io);
    if !Ordered(seen + [io]) {
      OrderedPrefix(seen, io, rest);
    }
  }

  /** Once round the loop of `process`; `all` is what has been added and what is still to come. */
  method Feed(iip: IfileInfo, stream: IoStream, ghost all: seq<Io>) returns (fed: Fed)
    requires stream.Valid() && iip.pos <= |iip.traces| && iip.genesis == Genesis(stream.seen)
    requires all == stream.seen + iip.Left()
    modifies iip, stream, stream.cur, if stream.cur == null then {} else {stream.cur.pkts}
    ensures old(iip.pos) <= iip.pos <= |iip.traces|
    ensures fed.Broken? ==> !Ordered(all)
    ensures !fed.Broken? ==> stream.Valid() && iip.genesis == Genesis(stream.seen)
    ensures fed.Exhausted? ==> stream.seen == all
    ensures fed.More? ==> old(iip.pos) < iip.pos && all == stream.seen + iip.Left()
    ensures stream.cur == old(stream.cur) || (fresh(stream.cur) && fresh(stream.cur.pkts))
  {
    ghost var seen, left := stream.seen, iip.Left();
    var next := iip.NextIo();
    match next
    case EndOfFile =>
      assert seen + left == seen;
      fed := Exhausted;
    case TimeInversion =>
      Inverted(seen, left);
      fed := Broken;
    case Next(spec) =>
      ghost var rest := iip.Left();
      NextOfAll(seen, spec, rest);
      var ok := stream.AddIo(spec);
      assert iip.Left() == rest;
      fed := if ok then More else Broken;
  }

  /** The loop of `process`. */
  method FeedAll(iip: IfileInfo, stream: IoStream, ghost all: seq<Io>) returns (ok: bool)
    requires stream.Valid() && iip.pos <= |iip.traces| && iip.genesis == Genesis(stream.seen)
    requires all == stream.seen + iip.Left()
    modifies iip, stream, stream.cur, if stream.cur == null then {} else {stream.cur.pkts}
    ensures if ok then stream.Valid() && stream.seen == all && iip.genesis == Genesis(all) else !Ordered(all)
  {
    var fed := More;
    while fed.More?
      invariant iip.pos <= |iip.traces| && iip.genesis == Genesis(stream.seen)
      invariant stream.cur == old(stream.cur) || (fresh(stream.cur) && fresh(stream.cur.pkts))
      invariant stream.Valid()
      invariant fed.More? ==> all == stream.seen + iip.Left()
      invariant !fed.More? ==> all == stream.seen
      decreases fed.More?, |iip.traces| - iip.pos
    {
      fed := Feed(iip, stream, all);
      if fed.Broken? {
        return false;
      }
    }
    ok := true;
  }

  /** `process`: aborts on exactly the files whose queue traces are out of order. */
  method Process(traces: seq<Trace>, maxPkts: nat, maxTm: U64) returns (r: Outcome)
    requires 1 <= maxPkts <= BT_MAX_PKTS
    ensures r.Aborted? <==> !Ordered(Queued(traces))
    ensures r.Done? ==> r.file == Recorded(Queued(traces), Genesis(Queued(traces)), maxPkts, maxTm)
    ensures AllDescribe(Queued(traces), QueueTraces(traces))
  {
    QueuedDescribe(traces);
    var iip := new IfileInfo(traces);
    var stream := new IoStream(maxPkts, maxTm);
    assert traces[0..] == traces;
    var ok := FeedAll(iip, stream, Queued(traces));
    if !ok {
      return Aborted;
    }
    var file := stream.Close(iip.genesis);
    r := Done(file);
  }
}

/**
  Piped output of blktrace: the trace bytes of one device and CPU arrive in buffers that are
  cut anywhere, and leave as whole records.
 */
module Framing {
  import opened Common
  import TraceApi

  /** The size of `struct blk_io_trace`. */
  const TRACE_SIZE := 48

  /** `pdu_len` is the last field of the header, two bytes. */
  function RecordLen(s: seq<Byte>, bigEndian: bool): (n: nat)
    requires |s| >= TRACE_SIZE
    ensures n >= TRACE_SIZE
  {
    var first: nat, second: nat := s[46], s[47];
    TRACE_SIZE + (if bigEndian then 256 * first + second else first + 256 * second)
  }

  /** There is a whole record at the beginning of `s`. */
  predicate HasRecord(s: seq<Byte>, bigEndian: bool) {
    |s| >= TRACE_SIZE && |s| >= RecordLen(s, bigEndian)
  }

  /** `s` is records, the last one whole. */
  predicate IsWhole(s: seq<Byte>, bigEndian: bool)
    decreases |s|
  {
    s == [] || (HasRecord(s, bigEndian) && IsWhole(s[RecordLen(s, bigEndian)..], bigEndian))
  }

  /** How many bytes of `s` are whole records. */
  function WholeLen(s: seq<Byte>, bigEndian: bool): (n: nat)
    ensures n <= |s|
    decreases |s|
  {
    if HasRecord(s, bigEndian)
    then RecordLen(s, bigEndian) + WholeLen(s[RecordLen(s, bigEndian)..], bigEndian)
    else 0
  }

  /** How many records they are. */
  function Count(s: seq<Byte>, bigEndian: bool): nat
    decreases |s|
  {
    if HasRecord(s, bigEndian) then 1 + Count(s[RecordLen(s, bigEndian)..], bigEndian) else 0
  }

  lemma {:induction false} WholeIsWhole(s: seq<Byte>, bigEndian: bool)
    ensures IsWhole(s[..WholeLen(s, bigEndian)], bigEndian)
    decreases |s|
  {
    if HasRecord(s, bigEndian) {
      var t, w := RecordLen(s, bigEndian), WholeLen(s, bigEndian);
      WholeIsWhole(s[t..], bigEndian);
      SameLen(s[..w], s, bigEndian);
      assert s[..w][t..] == s[t..][..w - t];
    }
  }

  lemma {:induction false} NoneLonger(s: seq<Byte>, n: nat, bigEndian: bool)
    requires n <= |s| && IsWhole(s[..n], bigEndian)
    ensures n <= WholeLen(s, bigEndian)
    decreases |s|
  {
    if n > 0 {
      var t := RecordLen(s[..n], bigEndian);
      SameLen(s[..n], s, bigEndian);
      assert s[..n][t..] == s[t..][..n - t];
      NoneLonger(s[t..], n - t, bigEndian);
    }
  }

  /** What `WholeLen` finds is whole, and no longer beginning of `s` is. */
  lemma WholeIsLongest(s: seq<Byte>, n: nat, bigEndian: bool)
    requires n <= |s|
    ensures IsWhole(s[..WholeLen(s, bigEndian)], bigEndian)
    ensures IsWhole(s[..n], bigEndian) ==> n <= WholeLen(s, bigEndian)
  {
    WholeIsWhole(s, bigEndian);
    if IsWhole(s[..n], bigEndian) {
      NoneLonger(s, n, bigEndian);
    }
  }

  /** The whole records of `a + b` are those of `a`, and those of what is left of `a` with `b`. */
  lemma {:induction false} WholeSplit(a: seq<Byte>, b: seq<Byte>, bigEndian: bool)
    ensures var w := WholeLen(a, bigEndian);
      && WholeLen(a + b, bigEndian) == w + WholeLen(a[w..] + b, bigEndian)
      && Count(a + b, bigEndian) == Count(a, bigEndian) + Count(a[w..] + b, bigEndian)
    decreases |a|
  {
    if HasRecord(a, bigEndian) {
      var t := RecordLen(a, bigEndian);
      WholeSplit(a[t..], b, bigEndian);
      assert RecordLen(a + b, bigEndian) == t;
      assert (a + b)[t..] == a[t..] + b;
      assert a[WholeLen(a, bigEndian)..] == a[t..][WholeLen(a, bigEndian) - t..];
    } else {
      assert a[0..] + b == a + b;
    }
  }

  /** The length is in the header. */
  lemma SameLen(head: seq<Byte>, s: seq<Byte>, bigEndian: bool)
    requires |head| >= TRACE_SIZE && head <= s
    ensures RecordLen(head, bigEndian) == RecordLen(s, bigEndian)
  {
  }

  lemma NoMore(s: seq<Byte>, bigEndian: bool)
    requires !HasRecord(s, bigEndian)
    ensures WholeLen(s, bigEndian) == 0 && Count(s, bigEndian) == 0
  {
  }

  lemma WholeStep(s: seq<Byte>, bigEndian: bool)
    requires HasRecord(s, bigEndian)
    ensures var t := RecordLen(s, bigEndian);
      && WholeLen(s, bigEndian) == t + WholeLen(s[t..], bigEndian)
      && Count(s, bigEndian) == 1 + Count(s[t..], bigEndian)
  {
  }

  // ---------- a stream that arrives in chunks ----------

  /** What has been written, what is kept for later, and the records counted. */
  datatype Stream = Stream(written: seq<Byte>, kept: seq<Byte>, nevents: nat)

  const NOTHING := Stream([], [], 0)

  /** `n` records, which are the first `w` bytes at hand, are written.  A write that fails loses all bytes at hand. */
  function Written(st: Stream, w: nat, n: nat, writes: bool): Stream
    requires w <= |st.kept|
  {
    if w == 0 then st.(nevents := st.nevents + n)
    else if !writes then Stream(st.written, [], st.nevents + n)
    else Stream(st.written + st.kept[..w], st.kept[w..], st.nevents + n)
  }

  /** The whole records at hand are written. */
  function Settle(st: Stream, writes: bool, bigEndian: bool): Stream {
    Written(st, WholeLen(st.kept, bigEndian), Count(st.kept, bigEndian), writes)
  }

  /** One more chunk. */
  function Take(st: Stream, chunk: seq<Byte>, writes: bool, bigEndian: bool): Stream {
    Settle(st.(kept := st.kept + chunk), writes, bigEndian)
  }

  /** `writes(i)` says whether the write for chunk `i` succeeds. */
  function TakeAll(st: Stream, chunks: seq<seq<Byte>>, writes: nat -> bool, bigEndian: bool): Stream {
    if chunks == [] then st
    else
      var i := |chunks| - 1;
      Take(TakeAll(st, chunks[..i], writes, bigEndian), chunks[i], writes(i), bigEndian)
  }

  lemma TakeNext(st: Stream, chunks: seq<seq<Byte>>, i: nat, now: Stream, writes: nat -> bool, bigEndian: bool)
    requires i < |chunks| && now == TakeAll(st, chunks[..i], writes, bigEndian)
    ensures TakeAll(st, chunks[..i + 1], writes, bigEndian) == Take(now, chunks[i], writes(i), bigEndian)
  {
    assert chunks[..i + 1][..i] == chunks[..i];
  }

  /** The stream that `received` ought to have become. */
  function Ideal(received: seq<Byte>, bigEndian: bool): Stream {
    var w := WholeLen(received, bigEndian);
    Stream(received[..w], received[w..], Count(received, bigEndian))
  }

  lemma Halves(a: seq<Byte>, b: seq<Byte>, w: nat, v: nat)
    requires w <= |a| && v <= |a| - w + |b|
    ensures (a + b)[..w + v] == a[..w] + (a[w..] + b)[..v]
    ensures (a + b)[w + v..] == (a[w..] + b)[v..]
  {
  }

  lemma TakeIsIdeal(received: seq<Byte>, chunk: seq<Byte>, bigEndian: bool)
    ensures Take(Ideal(received, bigEndian), chunk, true, bigEndian) == Ideal(received + chunk, bigEndian)
  {
    WholeSplit(received, chunk, bigEndian);
    var w := WholeLen(received, bigEndian);
    var data := received[w..] + chunk;
    Halves(received, chunk, w, WholeLen(data, bigEndian));
    NoRecordsNoBytes(data, bigEndian);
  }

  lemma NoRecordsNoBytes(s: seq<Byte>, bigEndian: bool)
    ensures WholeLen(s, bigEndian) == 0 <==> Count(s, bigEndian) == 0
  {
  }

  /** With chunk `i` there are more whole records in what has come. */
  predicate CompletesRecord(chunks: seq<seq<Byte>>, i: nat, bigEndian: bool)
    requires i < |chunks|
  {
    WholeLen(Flatten(chunks[..i + 1]), bigEndian) > WholeLen(Flatten(chunks[..i]), bigEndian)
  }

  /** No write has failed that a record called for. */
  predicate Smooth(chunks: seq<seq<Byte>>, writes: nat -> bool, bigEndian: bool) {
    forall i :: 0 <= i < |chunks| ==> writes(i) || !CompletesRecord(chunks, i, bigEndian)
  }

  lemma SmoothLast(chunks: seq<seq<Byte>>, writes: nat -> bool, bigEndian: bool)
    requires chunks != []
    ensures var i := |chunks| - 1;
      Smooth(chunks, writes, bigEndian) <==>
        Smooth(chunks[..i], writes, bigEndian) && (writes(i) || !CompletesRecord(chunks, i, bigEndian))
  {
    var front := chunks[..|chunks| - 1];
    forall k | 0 <= k < |front| ensures CompletesRecord(front, k, bigEndian) == CompletesRecord(chunks, k, bigEndian) {
      assert front[..k] == chunks[..k] && front[..k + 1] == chunks[..k + 1];
    }
  }

  /** A record is completed when there is one at the head of what was kept and the new chunk. */
  lemma CompletesIff(chunks: seq<seq<Byte>>, bigEndian: bool)
    requires chunks != []
    ensures var i := |chunks| - 1;
      CompletesRecord(chunks, i, bigEndian) <==>
        HasRecord(Ideal(Flatten(chunks[..i]), bigEndian).kept + chunks[i], bigEndian)
  {
    var i := |chunks| - 1;
    assert chunks[..i + 1] == chunks;
    FlattenLast(chunks);
    WholeSplit(Flatten(chunks[..i]), chunks[i], bigEndian);
  }

  /** However the bytes were cut, the stream is what it ought to be. */
  lemma {:induction false} CutsDoNotMatter(chunks: seq<seq<Byte>>, writes: nat -> bool, bigEndian: bool)
    requires Smooth(chunks, writes, bigEndian)
    ensures TakeAll(NOTHING, chunks, writes, bigEndian) == Ideal(Flatten(chunks), bigEndian)
  {
    if chunks != [] {
      var i := |chunks| - 1;
      SmoothLast(chunks, writes, bigEndian);
      CompletesIff(chunks, bigEndian);
      CutsDoNotMatter(chunks[..i], writes, bigEndian);
      FlattenLast(chunks);
      TakeIsIdeal(Flatten(chunks[..i]), chunks[i], bigEndian);
      IdleWrite(Ideal(Flatten(chunks[..i]), bigEndian), chunks[i], writes(i), bigEndian);
    }
  }

  lemma IdleWrite(st: Stream, chunk: seq<Byte>, writes: bool, bigEndian: bool)
    requires writes || !HasRecord(st.kept + chunk, bigEndian)
    ensures Take(st, chunk, writes, bigEndian) == Take(st, chunk, true, bigEndian)
  {
  }

  function Size(st: Stream): nat { |st.written| + |st.kept| }

  lemma TakeSize(st: Stream, chunk: seq<Byte>, writes: bool, bigEndian: bool)
    ensures Size(Take(st, chunk, writes, bigEndian)) <= Size(st) + |chunk|
    ensures !writes && HasRecord(st.kept + chunk, bigEndian) ==>
      Size(Take(st, chunk, writes, bigEndian)) < Size(st) + |chunk|
  {
  }

  lemma {:induction false} LossShows(chunks: seq<seq<Byte>>, writes: nat -> bool, bigEndian: bool)
    ensures Size(TakeAll(NOTHING, chunks, writes, bigEndian)) <= |Flatten(chunks)|
    ensures !Smooth(chunks, writes, bigEndian) ==> Size(TakeAll(NOTHING, chunks, writes, bigEndian)) < |Flatten(chunks)|
  {
    if chunks != [] {
      var i := |chunks| - 1;
      LossShows(chunks[..i], writes, bigEndian);
      SmoothLast(chunks, writes, bigEndian);
      CompletesIff(chunks, bigEndian);
      if Smooth(chunks[..i], writes, bigEndian) {
        CutsDoNotMatter(chunks[..i], writes, bigEndian);
      }
      FlattenLast(chunks);
      TakeSize(TakeAll(NOTHING, chunks[..i], writes, bigEndian), chunks[i], writes(i), bigEndian);
    }
  }

  /** Bytes are lost if and only if a write fails: then all that was at hand goes, the beginning of a record with it. */
  lemma NothingLostIff(chunks: seq<seq<Byte>>, writes: nat -> bool, bigEndian: bool)
    ensures var st := TakeAll(NOTHING, chunks, writes, bigEndian);
      st.written + st.kept == Flatten(chunks) <==> Smooth(chunks, writes, bigEndian)
  {
    var st := TakeAll(NOTHING, chunks, writes, bigEndian);
    if Smooth(chunks, writes, bigEndian) {
      CutsDoNotMatter(chunks, writes, bigEndian);
      IdealKeepsAll(Flatten(chunks), 0, bigEndian);
    } else {
      LossShows(chunks, writes, bigEndian);
      assert |st.written + st.kept| == Size(st);
    }
  }

  lemma IdealKeepsAll(all: seq<Byte>, n: nat, bigEndian: bool)
    requires n <= |all|
    ensures var st := Ideal(all, bigEndian);
      && st.written + st.kept == all && st.nevents == Count(all, bigEndian)
      && IsWhole(st.written, bigEndian) && (IsWhole(all[..n], bigEndian) ==> n <= |st.written|)
  {
    WholeIsLongest(all, n, bigEndian);
  }

  /**
    While writes succeed, no byte is lost or moved, what is written is the longest run of
    whole records, and the cuts between the buffers leave no trace in any of it.
   */
  lemma ChunkInvariance(chunks: seq<seq<Byte>>, writes: nat -> bool, bigEndian: bool,
                        all: seq<Byte>, st: Stream, n: nat)
    requires Smooth(chunks, writes, bigEndian)
    requires all == Flatten(chunks) && st == TakeAll(NOTHING, chunks, writes, bigEndian) && n <= |all|
    ensures st.written + st.kept == all && st.nevents == Count(all, bigEndian)
    ensures IsWhole(st.written, bigEndian) && (IsWhole(all[..n], bigEndian) ==> n <= |st.written|)
  {
    CutsDoNotMatter(chunks, writes, bigEndian);
    IdealKeepsAll(all, n, bigEndian);
  }

  lemma OneRecord(r: seq<Byte>, bigEndian: bool)
    requires |r| >= TRACE_SIZE && |r| == RecordLen(r, bigEndian)
    ensures WholeLen(r, bigEndian) == |r| && Count(r, bigEndian) == 1
  {
    assert r[|r|..] == [];
  }

  lemma TakeOne(front: seq<Byte>, n: nat, r: seq<Byte>, bigEndian: bool)
    requires WholeLen(r, bigEndian) == |r| > 0 && Count(r, bigEndian) == 1
    ensures Take(Stream(front, [], n), r, true, bigEndian) == Stream(front + r, [], n + 1)
  {
    assert [] + r == r;
    WriteAll(Stream(front, r, n));
  }

  lemma WriteAll(st: Stream)
    requires st.kept != []
    ensures Written(st, |st.kept|, 1, true) == Stream(st.written + st.kept, [], st.nevents + 1)
  {
  }

  lemma TakeNone(front: seq<Byte>, n: nat, tail: seq<Byte>, bigEndian: bool)
    requires !HasRecord(tail, bigEndian)
    ensures Take(Stream(front, [], n), tail, true, bigEndian) == Stream(front, tail, n)
  {
    assert [] + tail == tail;
    NoMore(tail, bigEndian);
  }

  /** Records one after the other come out as they are, and what follows the last is kept. */
  lemma {:induction false} RecordsComeOut(records: seq<seq<Byte>>, tail: seq<Byte>, bigEndian: bool)
    requires forall i :: 0 <= i < |records| ==>
      |records[i]| >= TRACE_SIZE && |records[i]| == RecordLen(records[i], bigEndian)
    requires !HasRecord(tail, bigEndian)
    ensures Ideal(Flatten(records), bigEndian) == Stream(Flatten(records), [], |records|)
    ensures Ideal(Flatten(records) + tail, bigEndian) == Stream(Flatten(records), tail, |records|)
  {
    if records != [] {
      var i := |records| - 1;
      RecordsComeOut(records[..i], [], bigEndian);
      FlattenLast(records);
      OneRecord(records[i], bigEndian);
      TakeOne(Flatten(records[..i]), i, records[i], bigEndian);
      TakeIsIdeal(Flatten(records[..i]), records[i], bigEndian);
    }
    TakeNone(Flatten(records), |records|, tail, bigEndian);
    TakeIsIdeal(Flatten(records), tail, bigEndian);
  }

  // ---------- the records that the kernel writes ----------

  lemma LastTwo(h: TraceApi.Header, bigEndian: bool)
    ensures var s, f := TraceApi.HeaderBytes(h, bigEndian), TraceApi.Field(h.pduLen, 2, bigEndian);
      s[46] == f[0] && s[47] == f[1]
  {
  }

  lemma TwoBytes(x: U16, bigEndian: bool)
    ensures TraceApi.Field(x, 2, bigEndian) == if bigEndian then [x / 256, x % 256] else [x % 256, x / 256]
  {
    if bigEndian {
      assert TraceApi.HighFirst(x, 2) == TraceApi.HighFirst(x / 256, 1) + [x % 256];
      assert TraceApi.HighFirst(x / 256, 1) == TraceApi.HighFirst(0, 0) + [x / 256];
    } else {
      assert TraceApi.LowFirst(x, 2) == [x % 256] + TraceApi.LowFirst(x / 256, 1);
      assert TraceApi.LowFirst(x / 256, 1) == [x / 256] + TraceApi.LowFirst(0, 0);
    }
  }

  /** The length is that of the header and of the payload it announces, not of any other field. */
  lemma LengthInHeader(h: TraceApi.Header, more: seq<Byte>, bigEndian: bool)
    ensures RecordLen(TraceApi.HeaderBytes(h, bigEndian) + more, bigEndian) == 48 + h.pduLen
  {
    LastTwo(h, bigEndian);
    TwoBytes(h.pduLen, bigEndian);
  }

  /** Whatever follows it, a record is found with just its length. */
  lemma FoundWhole(r: TraceApi.TraceRecord, rest: seq<Byte>, bigEndian: bool)
    requires r.Valid()
    ensures var s := r.Bytes(bigEndian) + rest;
      |s| >= TRACE_SIZE && RecordLen(s, bigEndian) == |r.Bytes(bigEndian)| && HasRecord(s, bigEndian)
  {
    var header := TraceApi.HeaderBytes(r.header, bigEndian);
    assert header + r.payload + rest == header + (r.payload + rest);
    LengthInHeader(r.header, r.payload + rest, bigEndian);
  }

  /** The beginning of a record that is not all there yet. */
  ghost predicate Begun(tail: seq<Byte>, bigEndian: bool) {
    exists r: TraceApi.TraceRecord :: r.Valid() && |tail| < |r.Bytes(bigEndian)| && tail <= r.Bytes(bigEndian)
  }

  lemma BegunIsNoRecord(tail: seq<Byte>, bigEndian: bool)
    requires Begun(tail, bigEndian)
    ensures !HasRecord(tail, bigEndian)
  {
    var r: TraceApi.TraceRecord :| r.Valid() && |tail| < |r.Bytes(bigEndian)| && tail <= r.Bytes(bigEndian);
    FoundWhole(r, [], bigEndian);
    assert r.Bytes(bigEndian) + [] == r.Bytes(bigEndian);
    if |tail| >= TRACE_SIZE {
      SameLen(tail, r.Bytes(bigEndian), bigEndian);
    }
  }

  function BytesOf(records: seq<TraceApi.TraceRecord>, bigEndian: bool): seq<seq<Byte>> {
    seq(|records|, i requires 0 <= i < |records| => records[i].Bytes(bigEndian))
  }

  /** However they are cut, the chunks are these records and the beginning of another, or nothing more. */
  ghost predicate Carry(chunks: seq<seq<Byte>>, records: seq<TraceApi.TraceRecord>, tail: seq<Byte>, bigEndian: bool) {
    && (forall i :: 0 <= i < |records| ==> records[i].Valid())
    && (tail == [] || Begun(tail, bigEndian))
    && Flatten(chunks) == Flatten(BytesOf(records, bigEndian)) + tail
  }

  /** The records come out whole, each as it is, and the beginning of the next is kept. */
  lemma TracesComeOut(chunks: seq<seq<Byte>>, writes: nat -> bool, records: seq<TraceApi.TraceRecord>, tail: seq<Byte>,
                      bigEndian: bool)
    requires Smooth(chunks, writes, bigEndian) && Carry(chunks, records, tail, bigEndian)
    ensures TakeAll(NOTHING, chunks, writes, bigEndian)
         == Stream(Flatten(BytesOf(records, bigEndian)), tail, |records|)
  {
    var parts := BytesOf(records, bigEndian);
    forall i | 0 <= i < |parts| ensures |parts[i]| >= TRACE_SIZE && |parts[i]| == RecordLen(parts[i], bigEndian) {
      FoundWhole(records[i], [], bigEndian);
      assert parts[i] + [] == parts[i];
    }
    if tail != [] {
      BegunIsNoRecord(tail, bigEndian);
    }
    CutsDoNotMatter(chunks, writes, bigEndian);
    RecordsComeOut(parts, tail, bigEndian);
  }
}

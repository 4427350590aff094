/**
  blkparse merges the trace files of all devices and CPUs by time.  Each file has a queue
  that is filled in batches; the queues hang in a list that is ordered by their first times.
 */
module MergeTheory {
  import opened Common

  /** Notifications are dealt with as they are read; a record of another CPU is complained of and lost. */
  datatype Kind = Trace | Notify | Foreign

  datatype Rec = Rec(time: U64, kind: Kind, data: nat)

  /** The traces of a file, which are what is to be merged. */
  function Traces(file: seq<Rec>): seq<Rec> {
    if file == [] then []
    else (if file[0].kind == Trace then [file[0]] else []) + Traces(file[1..])
  }

  predicate Ordered(rs: seq<Rec>) {
    forall i, j :: 0 <= i <= j < |rs| ==> rs[i].time <= rs[j].time
  }

  predicate NoForeign(file: seq<Rec>) {
    forall i :: 0 <= i < |file| ==> file[i].kind != Foreign
  }

  /** What a batch of `n` takes from a file, and what is left.  A notification does not count. */
  function Batch(file: seq<Rec>, n: nat): (r: (seq<Rec>, seq<Rec>))
    ensures |r.0| + |r.1| <= |file|
    decreases |file|
  {
    if n == 0 || file == [] then ([], file)
    else
      match file[0].kind
      case Notify => Batch(file[1..], n)
      case Foreign => Batch(file[1..], n - 1)
      case Trace =>
        var r := Batch(file[1..], n - 1);
        ([file[0]] + r.0, r.1)
  }

  /** All that batches of `n` bring, one after the other, up to the first that brings nothing. */
  function ReadAll(file: seq<Rec>, n: nat): seq<Rec>
    decreases |file|
  {
    var r := Batch(file, n);
    if r.0 == [] then [] else r.0 + ReadAll(r.1, n)
  }

  lemma {:induction false} BatchKeeps(file: seq<Rec>, n: nat)
    ensures Batch(file, n).0 + Traces(Batch(file, n).1) == Traces(file)
    decreases |file|
  {
    if n != 0 && file != [] {
      match file[0].kind
      case Notify => BatchKeeps(file[1..], n);
      case Foreign => BatchKeeps(file[1..], n - 1);
      case Trace =>
        BatchKeeps(file[1..], n - 1);
        var r := Batch(file[1..], n - 1);
        assert [file[0]] + r.0 + Traces(r.1) == [file[0]] + (r.0 + Traces(r.1));
    }
  }

  // ---------- when a file is read to its end ----------

  /** The records that count for a batch. */
  function Counted(file: seq<Rec>): seq<Rec> {
    if file == [] then []
    else (if file[0].kind != Notify then [file[0]] else []) + Counted(file[1..])
  }

  predicate NoTrace(rs: seq<Rec>) {
    forall j :: 0 <= j < |rs| ==> rs[j].kind != Trace
  }

  /** There is no trace among the `n` records at `i`, but there is one behind them. */
  predicate Hides(counted: seq<Rec>, n: nat, i: nat) {
    i + n <= |counted| && NoTrace(counted[i..i + n]) && !NoTrace(counted[i + n..])
  }

  /** Whole batches of `n` come before the record at `i`. */
  predicate StartsBatch(n: nat, i: nat)
    requires n >= 1
  {
    if i < n then i == 0 else StartsBatch(n, i - n)
  }

  /** No batch of the file hides a trace. */
  ghost predicate NothingHidden(counted: seq<Rec>, n: nat)
    requires n >= 1
  {
    forall i: nat :: StartsBatch(n, i) ==> !Hides(counted, n, i)
  }

  lemma {:induction false} NoTraces(rs: seq<Rec>)
    ensures Traces(rs) == [] <==> NoTrace(rs)
  {
    if rs != [] {
      NoTraces(rs[1..]);
      assert forall j :: 1 <= j < |rs| ==> rs[j] == rs[1..][j - 1];
    }
  }

  lemma {:induction false} TracesOfCounted(file: seq<Rec>)
    ensures Traces(Counted(file)) == Traces(file)
  {
    if file != [] {
      TracesOfCounted(file[1..]);
      var c := Counted(file);
      if file[0].kind == Notify {
        assert c == Counted(file[1..]) && Traces(file) == Traces(file[1..]);
      } else {
        assert c[0] == file[0] && c[1..] == Counted(file[1..]);
        assert Traces(c) == (if c[0].kind == Trace then [c[0]] else []) + Traces(c[1..]);
      }
    }
  }

  lemma TracesOfFront(counted: seq<Rec>, m: nat)
    requires 1 <= m <= |counted|
    ensures Traces(counted[..m])
         == (if counted[0].kind == Trace then [counted[0]] else []) + Traces(counted[1..][..m - 1])
    ensures counted[m..] == counted[1..][m - 1..]
  {
    assert counted[..m][1..] == counted[1..][..m - 1];
  }

  /** A batch takes `n` of the records that count, and keeps the traces among them. */
  lemma {:induction false} BatchOfCounted(file: seq<Rec>, n: nat)
    ensures var c, r := Counted(file), Batch(file, n); var m := Min(n, |c|);
      r.0 == Traces(c[..m]) && Counted(r.1) == c[m..]
    decreases |file|
  {
    var c := Counted(file);
    if n == 0 || file == [] {
      assert c[..0] == [] && c[0..] == c;
    } else if file[0].kind == Notify {
      BatchOfCounted(file[1..], n);
    } else {
      BatchOfCounted(file[1..], n - 1);
      assert c[0] == file[0] && c[1..] == Counted(file[1..]);
      TracesOfFront(c, Min(n, |c|));
    }
  }

  lemma NextBatch(counted: seq<Rec>, n: nat, i: nat)
    requires 1 <= n <= |counted|
    ensures Hides(counted, n, i + n) <==> Hides(counted[n..], n, i)
    ensures StartsBatch(n, i + n) <==> StartsBatch(n, i)
  {
    if i + n + n <= |counted| {
      assert counted[n..][i..i + n] == counted[i + n..i + n + n];
      assert counted[n..][i + n..] == counted[i + n + n..];
    }
  }

  lemma HiddenLater(counted: seq<Rec>, n: nat)
    requires 1 <= n <= |counted| && !Hides(counted, n, 0)
    ensures NothingHidden(counted, n) <==> NothingHidden(counted[n..], n)
  {
    forall i: nat | StartsBatch(n, i) && NothingHidden(counted, n) ensures !Hides(counted[n..], n, i) {
      NextBatch(counted, n, i);
    }
    forall i: nat | StartsBatch(n, i) && NothingHidden(counted[n..], n) ensures !Hides(counted, n, i) {
      if i >= n {
        NextBatch(counted, n, i - n);
      }
    }
  }

  lemma SplitNoTrace(counted: seq<Rec>, n: nat)
    requires n <= |counted|
    ensures NoTrace(counted) <==> NoTrace(counted[..n]) && NoTrace(counted[n..])
  {
    assert counted == counted[..n] + counted[n..];
  }

  /**
    What is read is the first traces of the file, and all of them if and only if no `n`
    records that make a batch are without a trace while there is one behind them.
   */
  lemma {:induction false} ReadsAllIff(file: seq<Rec>, n: nat)
    ensures ReadAll(file, n) <= Traces(file)
    ensures n >= 1 ==> (ReadAll(file, n) == Traces(file) <==> NothingHidden(Counted(file), n))
    decreases |file|
  {
    BatchKeeps(file, n);
    var c, r := Counted(file), Batch(file, n);
    if r.0 != [] {
      ReadsAllIff(r.1, n);
      SameRest(r.0, ReadAll(r.1, n), Traces(r.1));
    }
    if n >= 1 {
      BatchOfCounted(file, n);
      FirstBatch(c, n);
      TracesOfCounted(file);
      NoTraces(c);
    }
  }

  /** A batch without a trace hides what is behind it; after another one the rest decides. */
  lemma FirstBatch(counted: seq<Rec>, n: nat)
    requires n >= 1
    ensures var m := Min(n, |counted|);
      NothingHidden(counted, n) <==>
        if Traces(counted[..m]) == [] then NoTrace(counted) else NothingHidden(counted[m..], n)
  {
    var m := Min(n, |counted|);
    NoTraces(counted[..m]);
    SplitNoTrace(counted, m);
    if NoTrace(counted) {
      NoEarlier(counted, n);
    } else if |counted| >= n {
      assert counted[0..n] == counted[..n] && StartsBatch(n, 0);
      if !NoTrace(counted[..n]) {
        HiddenLater(counted, n);
      }
    }
  }

  lemma NoEarlier(counted: seq<Rec>, n: nat)
    requires NoTrace(counted) && n >= 1
    ensures NothingHidden(counted, n)
  {
  }

  lemma SameRest(front: seq<Rec>, a: seq<Rec>, b: seq<Rec>)
    ensures front + a == front + b <==> a == b
  {
    assert (front + a)[|front|..] == a && (front + b)[|front|..] == b;
  }

  /** A file of its own CPU's records is read to its end. */
  lemma OwnIsReadable(file: seq<Rec>, n: nat)
    requires n >= 1 && NoForeign(file)
    ensures ReadAll(file, n) == Traces(file)
  {
    ReadsAllIff(file, n);
    CountedOwn(file);
    forall i: nat | i + n <= |Counted(file)| ensures !Hides(Counted(file), n, i) {
      assert Counted(file)[i..i + n][0].kind == Trace;
    }
  }

  lemma {:induction false} CountedOwn(file: seq<Rec>)
    requires NoForeign(file)
    ensures forall i :: 0 <= i < |Counted(file)| ==> Counted(file)[i].kind == Trace
  {
    if file != [] {
      CountedOwn(file[1..]);
    }
  }

  function Foreigners(n: nat): seq<Rec> {
    seq(n, _ => Rec(0, Foreign, 0))
  }

  /** A batch of nothing but foreign records looks like the end of the file, whatever comes after. */
  lemma {:induction false} ForeignersHide(n: nat, rest: seq<Rec>)
    ensures Batch(Foreigners(n) + rest, n) == ([], rest) && ReadAll(Foreigners(n) + rest, n) == []
  {
    if n > 0 {
      assert (Foreigners(n) + rest)[1..] == Foreigners(n - 1) + rest;
      ForeignersHide(n - 1, rest);
    } else {
      assert Foreigners(0) + rest == rest;
    }
  }

  // ---------- what comes out ----------

  /** A trace that was handled, with its file and the time it is shown with. */
  datatype Out = Out(file: nat, rec: Rec, shown: nat)

  /** What came out of one file. */
  function From(out: seq<Out>, file: nat): seq<Rec> {
    if out == [] then []
    else From(out[..|out| - 1], file) + (if out[|out| - 1].file == file then [out[|out| - 1].rec] else [])
  }

  lemma FromAppend(out: seq<Out>, o: Out, file: nat)
    ensures From(out + [o], file) == From(out, file) + (if o.file == file then [o.rec] else [])
  {
    assert (out + [o])[..|out|] == out;
  }

  predicate OutOrdered(out: seq<Out>) {
    forall i, j :: 0 <= i <= j < |out| ==> out[i].rec.time <= out[j].rec.time
  }

  /** In order of time, and every trace in the window, shown with its time after `genesis`. */
  predicate InWindow(out: seq<Out>, genesis: nat, end: nat) {
    OutOrdered(out) && forall i :: 0 <= i < |out| ==> out[i].shown == out[i].rec.time - genesis <= end
  }

  predicate NotBefore(out: seq<Out>, t: nat) {
    out != [] ==> out[|out| - 1].rec.time <= t
  }

  lemma OutAppend(out: seq<Out>, o: Out, genesis: nat, end: nat)
    requires InWindow(out, genesis, end) && NotBefore(out, o.rec.time) && o.shown == o.rec.time - genesis <= end
    ensures InWindow(out + [o], genesis, end)
  {
    var more := out + [o];
    forall i, j | 0 <= i <= j < |more| ensures more[i].rec.time <= more[j].rec.time {
      if i < |out| {
        assert out[i].rec.time <= out[|out| - 1].rec.time;
      }
    }
  }

  /** The traces that are to be shown: no later than `end` after `genesis`. */
  function Window(rs: seq<Rec>, genesis: nat, end: nat): seq<Rec> {
    if rs == [] then []
    else (if rs[0].time - genesis <= end then [rs[0]] else []) + Window(rs[1..], genesis, end)
  }

  lemma {:induction false} WindowSplit(done: seq<Rec>, left: seq<Rec>, genesis: nat, end: nat)
    requires forall i :: 0 <= i < |done| ==> done[i].time - genesis <= end
    requires forall i :: 0 <= i < |left| ==> left[i].time - genesis > end
    ensures Window(done + left, genesis, end) == done
  {
    if done != [] {
      assert (done + left)[1..] == done[1..] + left;
      WindowSplit(done[1..], left, genesis, end);
    } else if left != [] {
      assert done + left == left;
      assert [] + left[1..] == left[1..];
      WindowSplit([], left[1..], genesis, end);
    } else {
      assert done + left == [];
    }
  }
}

/**
  How btrecord cuts the queue traces of a file into bunches, as theory: the runs a greedy
  cut makes, and why no cut makes fewer.
 */
module Bunching {
  import opened Common

  /** A queue trace, `struct io_spec`. */
  datatype Io = Io(time: U64, sector: U64, bytes: U32, rw: U32)

  predicate Ordered(ios: seq<Io>) {
    forall i, j :: 0 <= i <= j < |ios| ==> ios[i].time <= ios[j].time
  }

  /** A run that fits in one bunch. */
  predicate Fits(ios: seq<Io>, maxPkts: nat, maxTm: nat) {
    0 < |ios| <= maxPkts && ios[|ios| - 1].time - ios[0].time <= maxTm
  }

  /** A way to cut `ios` into bunches. */
  predicate IsCut(ios: seq<Io>, parts: seq<seq<Io>>, maxPkts: nat, maxTm: nat) {
    Flatten(parts) == ios && forall i :: 0 <= i < |parts| ==> Fits(parts[i], maxPkts, maxTm)
  }

  // ---------- the greedy cut ----------

  /** How far the first run reaches when `k` of it are known: as far as both limits allow. */
  function Reach(ios: seq<Io>, k: nat, maxPkts: nat, maxTm: nat): (r: nat)
    requires 1 <= k <= |ios| && k <= maxPkts
    ensures k <= r <= |ios| && r <= maxPkts
    decreases |ios| - k
  {
    if k < |ios| && k < maxPkts && ios[k].time - ios[0].time <= maxTm
    then Reach(ios, k + 1, maxPkts, maxTm) else k
  }

  /** The first run as long as it can be, then the rest the same way. */
  function Greedy(ios: seq<Io>, maxPkts: nat, maxTm: nat): (parts: seq<seq<Io>>)
    requires maxPkts >= 1
    ensures ios != [] <==> parts != []
  {
    if ios == [] then []
    else
      var n := Reach(ios, 1, maxPkts, maxTm);
      [ios[..n]] + Greedy(ios[n..], maxPkts, maxTm)
  }

  lemma {:induction false} ReachFits(ios: seq<Io>, k: nat, maxPkts: nat, maxTm: nat)
    requires 1 <= k <= |ios| && Fits(ios[..k], maxPkts, maxTm)
    ensures Fits(ios[..Reach(ios, k, maxPkts, maxTm)], maxPkts, maxTm)
    decreases |ios| - k
  {
    if k < |ios| && k < maxPkts && ios[k].time - ios[0].time <= maxTm {
      assert ios[..k + 1][k] == ios[k];
      ReachFits(ios, k + 1, maxPkts, maxTm);
    }
  }

  /** The greedy cut is one of the cuts. */
  lemma {:induction false} GreedyIsCut(ios: seq<Io>, maxPkts: nat, maxTm: nat)
    requires maxPkts >= 1
    ensures IsCut(ios, Greedy(ios, maxPkts, maxTm), maxPkts, maxTm)
  {
    if ios != [] {
      var n := Reach(ios, 1, maxPkts, maxTm);
      ReachFits(ios, 1, maxPkts, maxTm);
      GreedyIsCut(ios[n..], maxPkts, maxTm);
      assert ios == ios[..n] + ios[n..];
    }
  }

  /** Nothing that fits and begins at the same place reaches further. */
  lemma {:induction false} ReachIsFurthest(ios: seq<Io>, k: nat, n: nat, maxPkts: nat, maxTm: nat)
    requires Ordered(ios) && 1 <= k <= n <= |ios| && Fits(ios[..n], maxPkts, maxTm)
    ensures Reach(ios, k, maxPkts, maxTm) >= n
    decreases n - k
  {
    if k < n {
      assert ios[..n][n - 1] == ios[n - 1];
      ReachIsFurthest(ios, k + 1, n, maxPkts, maxTm);
    }
  }

  /** The first greedy run from inside `p` on reaches at least the end of `p`. */
  lemma CoversRun(p: seq<Io>, rest: seq<Io>, k: nat, maxPkts: nat, maxTm: nat) returns (n: nat)
    requires Ordered(p + rest) && Fits(p, maxPkts, maxTm) && k < |p|
    ensures |p| - k <= n <= |p| - k + |rest|
    ensures Greedy((p + rest)[k..], maxPkts, maxTm)[1..] == Greedy(rest[n - (|p| - k)..], maxPkts, maxTm)
  {
    var tail := (p + rest)[k..];
    assert tail[..|p| - k] == p[k..];
    assert p[k..][0] == (p + rest)[k] && p[0] == (p + rest)[0];
    ReachIsFurthest(tail, 1, |p| - k, maxPkts, maxTm);
    n := Reach(tail, 1, maxPkts, maxTm);
    assert tail[n..] == rest[n - (|p| - k)..];
  }

  /**
    Stays ahead: begun anywhere in `ios`, the greedy cut needs no more runs than any cut of
    all of `ios`.
   */
  lemma {:induction false} StaysAhead(ios: seq<Io>, parts: seq<seq<Io>>, k: nat, maxPkts: nat, maxTm: nat)
    requires maxPkts >= 1 && Ordered(ios) && IsCut(ios, parts, maxPkts, maxTm) && k <= |ios|
    ensures |Greedy(ios[k..], maxPkts, maxTm)| <= |parts|
    decreases |parts|
  {
    if k < |ios| {
      var p, rest := parts[0], Flatten(parts[1..]);
      RestIsCut(ios, parts, maxPkts, maxTm);
      if k >= |p| {
        assert ios[k..] == rest[k - |p|..];
        StaysAhead(rest, parts[1..], k - |p|, maxPkts, maxTm);
      } else {
        var n := CoversRun(p, rest, k, maxPkts, maxTm);
        StaysAhead(rest, parts[1..], n - (|p| - k), maxPkts, maxTm);
      }
    }
  }

  lemma RestIsCut(ios: seq<Io>, parts: seq<seq<Io>>, maxPkts: nat, maxTm: nat)
    requires Ordered(ios) && IsCut(ios, parts, maxPkts, maxTm) && ios != []
    ensures parts != [] && ios == parts[0] + Flatten(parts[1..]) && Ordered(Flatten(parts[1..]))
    ensures IsCut(Flatten(parts[1..]), parts[1..], maxPkts, maxTm) && Fits(parts[0], maxPkts, maxTm)
  {
    assert Flatten(parts[1..]) == ios[|parts[0]|..];
  }

  /** No way to cut an ordered stream makes fewer bunches than the greedy one. */
  lemma GreedyIsOptimal(ios: seq<Io>, parts: seq<seq<Io>>, maxPkts: nat, maxTm: nat)
    requires maxPkts >= 1 && Ordered(ios) && IsCut(ios, parts, maxPkts, maxTm)
    ensures |Greedy(ios, maxPkts, maxTm)| <= |parts|
  {
    StaysAhead(ios, parts, 0, maxPkts, maxTm);
    assert ios[0..] == ios;
  }

  // ---------- the greedy cut, one trace at a time ----------

  /** The cut after one more trace: it joins the last run, or begins a new one. */
  function Joined(parts: seq<seq<Io>>, io: Io, maxPkts: nat, maxTm: nat): seq<seq<Io>> {
    if parts == [] then [[io]]
    else
      var last := parts[|parts| - 1];
      if last == [] || |last| >= maxPkts || io.time - last[0].time > maxTm then parts + [[io]]
      else parts[..|parts| - 1] + [last + [io]]
  }

  lemma {:induction false} ReachOfPrefix(ios: seq<Io>, io: Io, k: nat, maxPkts: nat, maxTm: nat)
    requires 1 <= k <= |ios| && k <= maxPkts
    ensures var n := Reach(ios, k, maxPkts, maxTm);
      Reach(ios + [io], k, maxPkts, maxTm) ==
      if n < |ios| || |ios| >= maxPkts || io.time - ios[0].time > maxTm then n else |ios| + 1
    decreases |ios| - k
  {
    var more := ios + [io];
    if k < |ios| {
      assert more[k] == ios[k] && more[0] == ios[0];
      if k < maxPkts && ios[k].time - ios[0].time <= maxTm {
        ReachOfPrefix(ios, io, k + 1, maxPkts, maxTm);
      }
    } else {
      assert more[k] == io && more[0] == ios[0];
    }
  }

  lemma RunsNotEmpty(ios: seq<Io>, maxPkts: nat, maxTm: nat)
    requires maxPkts >= 1
    ensures forall i :: 0 <= i < |Greedy(ios, maxPkts, maxTm)| ==> Greedy(ios, maxPkts, maxTm)[i] != []
  {
    GreedyIsCut(ios, maxPkts, maxTm);
  }

  /** The online cut is the greedy one: a trace only ever touches the last run. */
  lemma {:induction false} GreedyOnline(ios: seq<Io>, io: Io, maxPkts: nat, maxTm: nat)
    requires maxPkts >= 1
    requires forall i :: 0 <= i < |Greedy(ios, maxPkts, maxTm)| ==> Greedy(ios, maxPkts, maxTm)[i] != []
    ensures Greedy(ios + [io], maxPkts, maxTm) == Joined(Greedy(ios, maxPkts, maxTm), io, maxPkts, maxTm)
  {
    GreedyOfOne(io, maxPkts, maxTm);
    if ios == [] {
      assert ios + [io] == [io];
    } else {
      var n := Reach(ios, 1, maxPkts, maxTm);
      ReachOfPrefix(ios, io, 1, maxPkts, maxTm);
      if n < |ios| {
        RunsNotEmpty(ios[n..], maxPkts, maxTm);
        GreedyOnline(ios[n..], io, maxPkts, maxTm);
        assert (ios + [io])[..n] == ios[..n] && (ios + [io])[n..] == ios[n..] + [io];
        JoinedBehind(ios[..n], Greedy(ios[n..], maxPkts, maxTm), io, maxPkts, maxTm);
      } else {
        OnlineInOne(ios, io, maxPkts, maxTm);
      }
    }
  }

  lemma OnlineInOne(ios: seq<Io>, io: Io, maxPkts: nat, maxTm: nat)
    requires maxPkts >= 1 && ios != [] && Reach(ios, 1, maxPkts, maxTm) == |ios|
    requires Greedy([io], maxPkts, maxTm) == [[io]]
    ensures Greedy(ios, maxPkts, maxTm) == [ios]
    ensures Greedy(ios + [io], maxPkts, maxTm) == Joined([ios], io, maxPkts, maxTm)
  {
    ReachOfPrefix(ios, io, 1, maxPkts, maxTm);
    var m := Reach(ios + [io], 1, maxPkts, maxTm);
    assert ios[..|ios|] == ios && ios[|ios|..] == [];
    if m == |ios| {
      assert (ios + [io])[..m] == ios && (ios + [io])[m..] == [io];
    } else {
      assert (ios + [io])[..m] == ios + [io] && (ios + [io])[m..] == [];
    }
  }

  lemma GreedyOfOne(io: Io, maxPkts: nat, maxTm: nat)
    requires maxPkts >= 1
    ensures Greedy([io], maxPkts, maxTm) == [[io]]
  {
    assert [io][..1] == [io] && [io][1..] == [];
  }

  lemma JoinedBehind(first: seq<Io>, rest: seq<seq<Io>>, io: Io, maxPkts: nat, maxTm: nat)
    requires rest != [] && first != [] && forall i :: 0 <= i < |rest| ==> rest[i] != []
    ensures Joined([first] + rest, io, maxPkts, maxTm) == [first] + Joined(rest, io, maxPkts, maxTm)
  {
    var all := [first] + rest;
    assert all[|all| - 1] == rest[|rest| - 1];
    assert all[..|all| - 1] == [first] + rest[..|rest| - 1];
  }

  /** One bunch is enough for exactly the streams that fit in one. */
  lemma OneIsEnough(ios: seq<Io>, maxPkts: nat, maxTm: nat)
    requires maxPkts >= 1 && Ordered(ios)
    ensures |Greedy(ios, maxPkts, maxTm)| <= 1 <==> ios == [] || Fits(ios, maxPkts, maxTm)
  {
    if ios != [] {
      var n := Reach(ios, 1, maxPkts, maxTm);
      ReachFits(ios, 1, maxPkts, maxTm);
      assert ios[..|ios|] == ios;
      if Fits(ios, maxPkts, maxTm) {
        ReachIsFurthest(ios, 1, |ios|, maxPkts, maxTm);
      }
      assert ios[n..] == [] <==> n == |ios|;
    }
  }
}

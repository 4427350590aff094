/**
  Piped output of blktrace: tracers put buffers on lists and count them afterwards, the main
  thread takes them off and uncounts them afterwards.  So the count is at times behind and at
  times ahead of the lists, and can be negative.
 */
module Piped {

  type Buf = nat

  /** A tracer that has put out `uncounted` buffers since it last counted, or has left. */
  datatype Tracer = Busy(uncounted: nat) | Left

  /** The main thread; a scan is at list `k`, and knows of `handled` buffers it has taken. */
  datatype Main = Waiting | Scan(k: nat, handled: nat, clean: bool) | Joining | Cleaning | Finished

  /** One list for each device and CPU, with all it was ever given and all that was taken off it. */
  datatype Queue = Queue(list: seq<Buf>, added: seq<Buf>, handled: seq<Buf>)

  datatype State = State(queues: seq<Queue>, entries: int, tracers: seq<Tracer>, done: bool, main: Main)

  function Initial(ndevs: nat, ncpus: nat): State {
    State(seq(ndevs * ncpus, _ => Queue([], [], [])), 0, seq(ncpus, _ => Busy(0)), false, Waiting)
  }

  // ---------- the steps ----------

  /** `add_trace_buf`, under the mutex of the list. */
  function Add(q: Queue, b: Buf): Queue {
    q.(list := q.list + [b], added := q.added + [b])
  }

  /** `list_replace_init` under the mutex of the list, and `handle_list` on what was on it. */
  function TakeOff(q: Queue): Queue {
    q.(list := [], handled := q.handled + q.list)
  }

  /** The tracer of CPU `c` adds to one of its own lists. */
  ghost predicate TracerAdds(s: State, t: State, c: nat, k: nat, b: Buf) {
    && c < |s.tracers| && s.tracers[c].Busy? && k < |s.queues| && k % |s.tracers| == c
    && t == s.(queues := s.queues[k := Add(s.queues[k], b)],
               tracers := s.tracers[c := Busy(s.tracers[c].uncounted + 1)])
  }

  /** `incr_entries` */
  ghost predicate TracerCounts(s: State, t: State, c: nat) {
    && c < |s.tracers| && s.tracers[c].Busy?
    && t == s.(entries := s.entries + s.tracers[c].uncounted, tracers := s.tracers[c := Busy(0)])
  }

  ghost predicate TracerLeaves(s: State, t: State, c: nat) {
    c < |s.tracers| && s.tracers[c] == Busy(0) && t == s.(tracers := s.tracers[c := Left])
  }

  ghost predicate TracerStep(s: State, t: State, c: nat) {
    TracerCounts(s, t, c) || TracerLeaves(s, t, c) || exists k, b :: TracerAdds(s, t, c, k, b)
  }

  /** `wait_empty_entries` gets through, or `done` ends the loop of `process_trace_bufs`. */
  ghost predicate MainStep(s: State, t: State) {
    match s.main
    case Waiting =>
      if s.done then t == s.(main := Joining) else s.entries != 0 && t == s.(main := Scan(0, 0, false))
    case Scan(k, handled, clean) =>
      if k < |s.queues| then
        t == s.(queues := s.queues[k := TakeOff(s.queues[k])],
                main := Scan(k + 1, handled + |s.queues[k].list|, clean))
      else
        t == s.(entries := s.entries - handled, main := if clean then Cleaning else Waiting)
    case Joining =>
      (forall c :: 0 <= c < |s.tracers| ==> s.tracers[c].Left?) && t == s.(main := Cleaning)
    case Cleaning =>
      t == s.(main := if s.entries != 0 then Scan(0, 0, true) else Finished)
    case Finished => false
  }

  ghost predicate Step(s: State, t: State) {
    || MainStep(s, t)
    || t == s.(done := true)
    || exists c :: TracerStep(s, t, c)
  }

  ghost predicate Run(ndevs: nat, ncpus: nat, states: seq<State>) {
    && states != [] && states[0] == Initial(ndevs, ncpus)
    && forall i :: 0 <= i < |states| - 1 ==> Step(states[i], states[i + 1])
  }

  // ---------- sums ----------

  /** The buffers on all the lists. */
  function OnLists(qs: seq<Queue>): nat {
    if qs == [] then 0 else |qs[0].list| + OnLists(qs[1..])
  }

  function Uncounted(t: Tracer): nat { if t.Busy? then t.uncounted else 0 }

  /** The buffers that are on a list or were, and that no tracer has counted. */
  function AllUncounted(ts: seq<Tracer>): nat {
    if ts == [] then 0 else Uncounted(ts[0]) + AllUncounted(ts[1..])
  }

  lemma {:induction false} OnListsUpdate(qs: seq<Queue>, k: nat, q: Queue)
    requires k < |qs|
    ensures OnLists(qs[k := q]) + |qs[k].list| == OnLists(qs) + |q.list|
  {
    if k == 0 {
      assert qs[0 := q][1..] == qs[1..];
    } else {
      assert qs[k := q][1..] == qs[1..][k - 1 := q];
      OnListsUpdate(qs[1..], k - 1, q);
    }
  }

  lemma {:induction false} UncountedUpdate(ts: seq<Tracer>, c: nat, t: Tracer)
    requires c < |ts|
    ensures AllUncounted(ts[c := t]) + Uncounted(ts[c]) == AllUncounted(ts) + Uncounted(t)
  {
    if c == 0 {
      assert ts[0 := t][1..] == ts[1..];
    } else {
      assert ts[c := t][1..] == ts[1..][c - 1 := t];
      UncountedUpdate(ts[1..], c - 1, t);
    }
  }

  lemma {:induction false} NoneUncounted(ts: seq<Tracer>)
    requires forall c :: 0 <= c < |ts| ==> Uncounted(ts[c]) == 0
    ensures AllUncounted(ts) == 0
  {
    if ts != [] {
      NoneUncounted(ts[1..]);
    }
  }

  lemma {:induction false} NothingOnLists(qs: seq<Queue>)
    ensures OnLists(qs) == 0 <==> forall k :: 0 <= k < |qs| ==> qs[k].list == []
  {
    if qs != [] {
      NothingOnLists(qs[1..]);
      if OnLists(qs) == 0 {
        forall k | 0 <= k < |qs| ensures qs[k].list == [] {
          assert k > 0 ==> qs[k] == qs[1..][k - 1];
        }
      }
    }
  }

  // ---------- the invariant ----------

  /** What the main thread has taken and not yet uncounted. */
  function Taken(m: Main): nat { if m.Scan? then m.handled else 0 }

  /** The tracers are joined. */
  predicate Quiet(m: Main) { m.Cleaning? || m.Finished? || (m.Scan? && m.clean) }

  /** Every buffer is still on the list it was given to or was handled, in order and once. */
  predicate Kept(q: Queue) { q.handled + q.list == q.added }

  predicate AllLeft(ts: seq<Tracer>) { forall c :: 0 <= c < |ts| ==> ts[c].Left? }

  ghost predicate Inv(s: State) {
    && (forall k :: 0 <= k < |s.queues| ==> Kept(s.queues[k]))
    && s.entries + AllUncounted(s.tracers) == OnLists(s.queues) + Taken(s.main)
    && (Quiet(s.main) ==> AllLeft(s.tracers))
    && (s.main.Finished? ==> s.entries == 0)
    && (s.main.Scan? ==> s.main.k <= |s.queues|)
    && (s.main.Scan? && s.main.clean ==> forall k :: 0 <= k < s.main.k ==> s.queues[k].list == [])
  }

  lemma {:induction false} Empties(n: nat)
    ensures OnLists(seq(n, _ => Queue([], [], []))) == 0
  {
    NothingOnLists(seq(n, _ => Queue([], [], [])));
  }

  lemma Initially(ndevs: nat, ncpus: nat)
    ensures Inv(Initial(ndevs, ncpus))
  {
    Empties(|Initial(ndevs, ncpus).queues|);
    NoneUncounted(Initial(ndevs, ncpus).tracers);
  }

  lemma AddKeepsInv(s: State, t: State, c: nat, k: nat, b: Buf)
    requires Inv(s) && TracerAdds(s, t, c, k, b)
    ensures Inv(t)
  {
    UncountedUpdate(s.tracers, c, t.tracers[c]);
    OnListsUpdate(s.queues, k, t.queues[k]);
    assert Kept(s.queues[k]);
    assert !Quiet(s.main);
  }

  lemma TracerKeepsInv(s: State, t: State, c: nat)
    requires Inv(s) && (TracerCounts(s, t, c) || TracerLeaves(s, t, c))
    ensures Inv(t)
  {
    UncountedUpdate(s.tracers, c, t.tracers[c]);
  }

  lemma MainKeepsInv(s: State, t: State)
    requires Inv(s) && MainStep(s, t)
    ensures Inv(t)
  {
    if s.main.Scan? && s.main.k < |s.queues| {
      OnListsUpdate(s.queues, s.main.k, t.queues[s.main.k]);
      assert Kept(s.queues[s.main.k]);
    }
  }

  lemma {:induction false} RunKeepsInv(ndevs: nat, ncpus: nat, states: seq<State>, j: nat)
    requires Run(ndevs, ncpus, states) && j < |states|
    ensures Inv(states[j]) && |states[j].queues| == ndevs * ncpus
  {
    if j == 0 {
      Initially(ndevs, ncpus);
    } else {
      RunKeepsInv(ndevs, ncpus, states, j - 1);
      var s, t := states[j - 1], states[j];
      assert Step(s, t);
      if MainStep(s, t) {
        MainKeepsInv(s, t);
      } else if t != s.(done := true) {
        var c :| TracerStep(s, t, c);
        if TracerCounts(s, t, c) || TracerLeaves(s, t, c) {
          TracerKeepsInv(s, t, c);
        } else {
          var k, b :| TracerAdds(s, t, c, k, b);
          AddKeepsInv(s, t, c, k, b);
        }
      }
    }
  }

  // ---------- the main results ----------

  /**
    In every state: what is counted and what is not yet counted is what is on the lists and
    what is taken and not yet uncounted.
   */
  lemma Balance(ndevs: nat, ncpus: nat, states: seq<State>, j: nat)
    requires Run(ndevs, ncpus, states) && j < |states|
    ensures var s := states[j];
      s.entries + AllUncounted(s.tracers) == OnLists(s.queues) + Taken(s.main)
  {
    RunKeepsInv(ndevs, ncpus, states, j);
  }

  lemma LeftCountedAll(ts: seq<Tracer>)
    requires AllLeft(ts)
    ensures AllUncounted(ts) == 0
  {
    NoneUncounted(ts);
  }

  /** Once the tracers are joined, `clean_trace_bufs` sees a count of zero exactly when every list is empty. */
  lemma CleanSeesTheLists(ndevs: nat, ncpus: nat, states: seq<State>, j: nat)
    requires Run(ndevs, ncpus, states) && j < |states| && states[j].main.Cleaning?
    ensures var s := states[j];
      s.entries == 0 <==> forall k :: 0 <= k < |s.queues| ==> s.queues[k].list == []
  {
    RunKeepsInv(ndevs, ncpus, states, j);
    LeftCountedAll(states[j].tracers);
    NothingOnLists(states[j].queues);
  }

  /** Nothing is lost: at the end every list is empty, and every buffer was handled once and in its order. */
  lemma NothingLost(ndevs: nat, ncpus: nat, states: seq<State>, j: nat, k: nat)
    requires Run(ndevs, ncpus, states) && j < |states| && states[j].main.Finished?
    requires k < |states[j].queues|
    ensures var q := states[j].queues[k]; q.list == [] && q.handled == q.added
  {
    RunKeepsInv(ndevs, ncpus, states, j);
    var s := states[j];
    LeftCountedAll(s.tracers);
    NothingOnLists(s.queues);
    assert Kept(s.queues[k]);
    assert s.queues[k].handled + [] == s.queues[k].handled;
  }

  /** The last step of a scan after the joining leaves no reason for another. */
  lemma OneScanCleans(ndevs: nat, ncpus: nat, states: seq<State>, j: nat)
    requires Run(ndevs, ncpus, states) && j < |states|
    requires var m := states[j].main; m.Scan? && m.clean && m.k == |states[j].queues|
    ensures states[j].entries - states[j].main.handled == 0
  {
    RunKeepsInv(ndevs, ncpus, states, j);
    LeftCountedAll(states[j].tracers);
    NothingOnLists(states[j].queues);
  }

  lemma Prolong(ndevs: nat, ncpus: nat, run: seq<State>, t: State) returns (longer: seq<State>)
    requires Run(ndevs, ncpus, run) && Step(run[|run| - 1], t)
    ensures Run(ndevs, ncpus, longer) && longer[|longer| - 1] == t
  {
    longer := run + [t];
    forall i | 0 <= i < |longer| - 1 ensures Step(longer[i], longer[i + 1]) {
      if i < |run| - 1 {
        assert Step(run[i], run[i + 1]);
      }
    }
  }

  predicate EmptyFrom(qs: seq<Queue>, k: nat) {
    forall i :: k <= i < |qs| ==> qs[i].list == []
  }

  /** There are `n` buffers on the first list and none on the others, and its tracer is there. */
  predicate OnFirst(s: State, n: nat) {
    && s.queues != [] && |s.queues[0].list| == n && EmptyFrom(s.queues, 1)
    && s.tracers != [] && s.tracers[0].Busy?
  }

  lemma {:induction false} AddMany(ndevs: nat, ncpus: nat, run: seq<State>, m: nat, n: nat) returns (longer: seq<State>)
    requires Run(ndevs, ncpus, run) && OnFirst(run[|run| - 1], m)
    ensures Run(ndevs, ncpus, longer) && OnFirst(longer[|longer| - 1], m + n)
    ensures var s, t := run[|run| - 1], longer[|longer| - 1];
      t == s.(queues := t.queues, tracers := t.tracers) && t.tracers[0].uncounted == s.tracers[0].uncounted + n
    decreases n
  {
    longer := run;
    if n > 0 {
      var s := run[|run| - 1];
      var t := s.(queues := s.queues[0 := Add(s.queues[0], 0)],
                  tracers := s.tracers[0 := Busy(s.tracers[0].uncounted + 1)]);
      assert TracerAdds(s, t, 0, 0, 0);
      assert TracerStep(s, t, 0);
      longer := Prolong(ndevs, ncpus, run, t);
      longer := AddMany(ndevs, ncpus, longer, m + 1, n - 1);
    }
  }

  lemma CountAll(ndevs: nat, ncpus: nat, run: seq<State>, m: nat) returns (longer: seq<State>)
    requires Run(ndevs, ncpus, run) && OnFirst(run[|run| - 1], m)
    ensures Run(ndevs, ncpus, longer) && OnFirst(longer[|longer| - 1], m)
    ensures var s, t := run[|run| - 1], longer[|longer| - 1];
      t == s.(tracers := t.tracers, entries := s.entries + s.tracers[0].uncounted)
  {
    var s := run[|run| - 1];
    var t := s.(entries := s.entries + s.tracers[0].uncounted, tracers := s.tracers[0 := Busy(0)]);
    assert TracerCounts(s, t, 0) && TracerStep(s, t, 0);
    longer := Prolong(ndevs, ncpus, run, t);
  }

  /** The rest of a scan that finds nothing more. */
  lemma {:induction false} ScanRest(ndevs: nat, ncpus: nat, run: seq<State>, k: nat, handled: nat)
    returns (longer: seq<State>)
    requires Run(ndevs, ncpus, run) && k <= |run[|run| - 1].queues|
    requires run[|run| - 1].main == Scan(k, handled, false)
    requires EmptyFrom(run[|run| - 1].queues, k)
    ensures Run(ndevs, ncpus, longer) && longer[|longer| - 1].entries == run[|run| - 1].entries - handled
    ensures longer[|longer| - 1].main == Waiting && longer[|longer| - 1].done == run[|run| - 1].done
    decreases |run[|run| - 1].queues| - k
  {
    var s := run[|run| - 1];
    if k < |s.queues| {
      longer := Prolong(ndevs, ncpus, run,
        s.(queues := s.queues[k := TakeOff(s.queues[k])], main := Scan(k + 1, handled, false)));
      longer := ScanRest(ndevs, ncpus, longer, k + 1, handled);
    } else {
      longer := Prolong(ndevs, ncpus, run, s.(entries := s.entries - handled, main := Waiting));
    }
  }

  /**
    The count can be as far below zero as may be: the main thread takes buffers off before
    they are counted.  It does not wait then, but scans the lists again.
   */
  lemma CountCanBeNegative(ndevs: nat, ncpus: nat, n: nat) returns (run: seq<State>)
    requires ndevs >= 1 && ncpus >= 1
    ensures Run(ndevs, ncpus, run) && run[|run| - 1].entries == 0 - n
    ensures n > 0 ==> Step(run[|run| - 1], run[|run| - 1].(main := Scan(0, 0, false)))
  {
    run := [Initial(ndevs, ncpus)];
    assert ndevs * ncpus >= 1;
    run := AddMany(ndevs, ncpus, run, 0, 1);
    run := CountAll(ndevs, ncpus, run, 1);
    run := Prolong(ndevs, ncpus, run, run[|run| - 1].(main := Scan(0, 0, false)));
    run := AddMany(ndevs, ncpus, run, 1, n);
    var s := run[|run| - 1];
    run := Prolong(ndevs, ncpus, run, s.(queues := s.queues[0 := TakeOff(s.queues[0])], main := Scan(1, n + 1, false)));
    run := ScanRest(ndevs, ncpus, run, 1, n + 1);
  }

  // ---------- the main thread's code, when it is alone ----------

  function AllTakenOff(qs: seq<Queue>): seq<Queue> {
    seq(|qs|, k requires 0 <= k < |qs| => TakeOff(qs[k]))
  }

  lemma {:induction false} OnListsAppend(qs: seq<Queue>, q: Queue)
    ensures OnLists(qs + [q]) == OnLists(qs) + |q.list|
  {
    if qs == [] {
      assert qs + [q] == [q] && OnLists([q][1..]) == 0;
    } else {
      assert (qs + [q])[1..] == qs[1..] + [q];
      OnListsAppend(qs[1..], q);
    }
  }

  class DataPath {
    const queues: array<Queue>
    var dpEntries: int

    constructor (queues: array<Queue>, dpEntries: int)
      ensures this.queues == queues && this.dpEntries == dpEntries
    {
      this.queues, this.dpEntries := queues, dpEntries;
    }

    /** `__process_trace_bufs` */
    method ProcessTraceBufs()
      modifies this, queues
      ensures queues[..] == AllTakenOff(old(queues[..]))
      ensures dpEntries == old(dpEntries) - OnLists(old(queues[..]))
    {
      ghost var was := queues[..];
      var handled := 0;
      for k := 0 to queues.Length
        invariant forall i :: 0 <= i < k ==> queues[i] == TakeOff(was[i])
        invariant forall i :: k <= i < queues.Length ==> queues[i] == was[i]
        invariant handled == OnLists(was[..k]) && dpEntries == old(dpEntries)
      {
        OnListsAppend(was[..k], was[k]);
        assert was[..k + 1] == was[..k] + [was[k]];
        if queues[k].list != [] {
          var list := queues[k].list;
          queues[k] := queues[k].(list := []);
          handled := handled + |list|;
          queues[k] := queues[k].(handled := queues[k].handled + list);
        } else {
          assert was[k].handled + [] == was[k].handled;
        }
      }
      assert was[..|was|] == was;
      if handled != 0 {
        dpEntries := dpEntries - handled;
      }
    }

    /** `clean_trace_bufs`, called when the count is right: it ends, with every list handled. */
    method CleanTraceBufs()
      requires dpEntries == OnLists(queues[..])
      modifies this, queues
      ensures dpEntries == 0 && queues[..] == AllTakenOff(old(queues[..]))
    {
      ghost var was := queues[..];
      NothingOnLists(was);
      ghost var taken := AllTakenOff(was);
      NothingOnLists(taken);
      if dpEntries == 0 {
        forall k | 0 <= k < |was| ensures was[k] == taken[k] {
          assert was[k].handled + [] == was[k].handled;
        }
      }
      while dpEntries != 0
        invariant dpEntries == OnLists(queues[..]) && (queues[..] == was || queues[..] == taken)
        invariant dpEntries == 0 ==> queues[..] == taken
        decreases OnLists(queues[..])
      {
        ProcessTraceBufs();
      }
    }
  }
}

/**
  btreplay's start and end of an iteration: main hands out one token for each file and
  waits until as many passes are over.  A token is not tied to a thread, so a fast thread
  may make two passes in one round and a slow one none.
 */
module Barrier {
  import opened Common

  datatype Pc = Starting | Testing | AtStart | Replaying | Ended

  /** A replay thread: where it is, the iterations it has left, the passes it has made. */
  datatype Thread = Thread(pc: Pc, left: nat, passes: nat)

  datatype Main = AwaitReady | StartIter(i: nat) | AwaitIters(i: nat) | AwaitReplays | Finished

  datatype State = State(
    main: Main, threads: seq<Thread>,
    nReady: nat, iterStart: nat, nItersDone: nat, nReplaysDone: nat)

  function Initial(nfiles: nat, iterations: nat): State {
    State(AwaitReady, seq(nfiles, _ => Thread(Starting, iterations, 0)), 0, 0, 0, 0)
  }

  // ---------- the steps ----------

  /** A thread waits for a token in `wait_iter_start`, and for nothing else. */
  predicate ThreadCan(s: State, x: Thread) {
    x.pc != Ended && (x.pc == AtStart ==> s.iterStart > 0)
  }

  /** One step of thread `k`: replay_sub, with `__set_cv` and `wait_iter_start` as single steps. */
  function AfterThread(s: State, k: nat): State
    requires k < |s.threads| && ThreadCan(s, s.threads[k])
  {
    var x := s.threads[k];
    match x.pc
    case Starting => s.(threads := s.threads[k := x.(pc := Testing)], nReady := s.nReady + 1)
    case Testing =>
      if x.left > 0 then s.(threads := s.threads[k := x.(pc := AtStart, left := x.left - 1)])
      else s.(threads := s.threads[k := x.(pc := Ended)], nReplaysDone := s.nReplaysDone + 1)
    case AtStart => s.(threads := s.threads[k := x.(pc := Replaying)], iterStart := s.iterStart - 1)
    case Replaying =>
      s.(threads := s.threads[k := x.(pc := Testing, passes := x.passes + 1)], nItersDone := s.nItersDone + 1)
  }

  /** The `__wait_cv` that main stands at gets through. */
  predicate MainCan(s: State) {
    var nfiles := |s.threads|;
    match s.main
    case AwaitReady => s.nReady >= nfiles
    case StartIter(i) => true
    case AwaitIters(i) => s.nItersDone >= nfiles
    case AwaitReplays => s.nReplaysDone >= nfiles
    case Finished => false
  }

  /** One step of main, with `start_iter` and each `__wait_cv` as single steps. */
  function AfterMain(iterations: nat, s: State): State
    requires MainCan(s)
  {
    match s.main
    case AwaitReady => s.(nReady := 0, main := if iterations > 0 then StartIter(0) else AwaitReplays)
    case StartIter(i) => s.(iterStart := |s.threads|, main := AwaitIters(i))
    case AwaitIters(i) => s.(nItersDone := 0, main := if i + 1 < iterations then StartIter(i + 1) else AwaitReplays)
    case AwaitReplays => s.(nReplaysDone := 0, main := Finished)
  }

  ghost predicate ThreadStep(s: State, t: State, k: nat) {
    k < |s.threads| && ThreadCan(s, s.threads[k]) && t == AfterThread(s, k)
  }

  ghost predicate MainStep(iterations: nat, s: State, t: State) {
    MainCan(s) && t == AfterMain(iterations, s)
  }

  ghost predicate Step(iterations: nat, s: State, t: State) {
    MainStep(iterations, s, t) || exists k :: ThreadStep(s, t, k)
  }

  ghost predicate Run(nfiles: nat, iterations: nat, states: seq<State>) {
    && states != [] && states[0] == Initial(nfiles, iterations)
    && forall i :: 0 <= i < |states| - 1 ==> Step(iterations, states[i], states[i + 1])
  }

  // ---------- sums over the threads ----------

  function Sum(ts: seq<Thread>, f: Thread -> nat): nat {
    if ts == [] then 0 else f(ts[0]) + Sum(ts[1..], f)
  }

  lemma {:induction false} SumUpdate(ts: seq<Thread>, f: Thread -> nat, k: nat, x: Thread)
    requires k < |ts|
    ensures Sum(ts[k := x], f) + f(ts[k]) == Sum(ts, f) + f(x)
  {
    if k == 0 {
      assert ts[0 := x][1..] == ts[1..];
    } else {
      assert ts[k := x][1..] == ts[1..][k - 1 := x];
      SumUpdate(ts[1..], f, k - 1, x);
    }
  }

  lemma {:induction false} SumBound(ts: seq<Thread>, f: Thread -> nat, m: nat)
    requires forall i :: 0 <= i < |ts| ==> f(ts[i]) <= m
    ensures Sum(ts, f) <= m * |ts|
    ensures Sum(ts, f) == m * |ts| ==> forall i :: 0 <= i < |ts| ==> f(ts[i]) == m
  {
    if ts != [] {
      SumBound(ts[1..], f, m);
      assert m * |ts| == m + m * |ts[1..]|;
      forall i | 0 <= i < |ts| && Sum(ts, f) == m * |ts| ensures f(ts[i]) == m {
        if i > 0 {
          assert ts[i] == ts[1..][i - 1];
        }
      }
    }
  }

  lemma {:induction false} SumZero(ts: seq<Thread>, f: Thread -> nat)
    requires forall i :: 0 <= i < |ts| ==> f(ts[i]) == 0
    ensures Sum(ts, f) == 0
  {
    SumBound(ts, f, 0);
  }

  lemma {:induction false} SumTerm(ts: seq<Thread>, f: Thread -> nat, k: nat)
    requires k < |ts|
    ensures Sum(ts, f) >= f(ts[k])
  {
    if k > 0 {
      SumTerm(ts[1..], f, k - 1);
    }
  }

  function One(b: bool): nat { if b then 1 else 0 }

  const IS_UP := (t: Thread) => One(t.pc != Starting)
  const IS_REPLAYING := (t: Thread) => One(t.pc == Replaying)
  const HAS_ENDED := (t: Thread) => One(t.pc == Ended)
  const PASSES := (t: Thread) => t.passes

  // ---------- the invariant ----------

  ghost predicate ThreadOk(iterations: nat, t: Thread) {
    match t.pc
    case Starting => t.left == iterations && t.passes == 0
    case Testing => t.left + t.passes == iterations
    case AtStart => t.left + 1 + t.passes == iterations
    case Replaying => t.left + 1 + t.passes == iterations
    case Ended => t.left == 0 && t.passes == iterations
  }

  /** How many rounds are over, as main counts them. */
  function Rounds(iterations: nat, m: Main): nat {
    match m
    case AwaitReady => 0
    case StartIter(i) => i
    case AwaitIters(i) => i
    case AwaitReplays => iterations
    case Finished => iterations
  }

  /** The number of threads that are up, that hold a token and that have ended, and all passes made. */
  datatype Tally = Tally(up: nat, replaying: nat, ended: nat, passes: nat)

  function TallyOf(ts: seq<Thread>): Tally {
    Tally(Sum(ts, IS_UP), Sum(ts, IS_REPLAYING), Sum(ts, HAS_ENDED), Sum(ts, PASSES))
  }

  ghost predicate ThreadsOk(iterations: nat, ts: seq<Thread>) {
    forall k :: 0 <= k < |ts| ==> ThreadOk(iterations, ts[k])
  }

  /** What main's place says about the counters. */
  ghost predicate Balanced(nfiles: nat, iterations: nat, s: State, c: Tally) {
    && (s.main.StartIter? || s.main.AwaitIters? ==> s.main.i < iterations)
    // every thread reports once that it is up, and once that it has ended
    && (if s.main.AwaitReady? then s.nReady == c.up else s.nReady == 0 && c.up == nfiles)
    && (if s.main.Finished? then s.nReplaysDone == 0 && c.ended == nfiles else s.nReplaysDone == c.ended)
    // the tokens of a round are still there, in use, or handed back
    && s.iterStart + c.replaying + s.nItersDone == (if s.main.AwaitIters? then nfiles else 0)
    // every round is as many passes as there are files
    && c.passes == Times(Rounds(iterations, s.main), nfiles) + s.nItersDone
  }

  ghost predicate Inv(nfiles: nat, iterations: nat, s: State) {
    && |s.threads| == nfiles
    && ThreadsOk(iterations, s.threads)
    && Balanced(nfiles, iterations, s, TallyOf(s.threads))
  }

  lemma {:induction false} SumOfSame(n: nat, t: Thread, f: Thread -> nat)
    ensures f(t) == 0 ==> Sum(seq(n, _ => t), f) == 0
  {
    if f(t) == 0 {
      SumZero(seq(n, _ => t), f);
    }
  }

  lemma Initially(nfiles: nat, iterations: nat)
    ensures Inv(nfiles, iterations, Initial(nfiles, iterations))
  {
    var t := Thread(Starting, iterations, 0);
    SumOfSame(nfiles, t, IS_UP);
    SumOfSame(nfiles, t, IS_REPLAYING);
    SumOfSame(nfiles, t, HAS_ENDED);
    SumOfSame(nfiles, t, PASSES);
  }

  /** One thread's part of a tally. */
  function Share(t: Thread): Tally {
    Tally(IS_UP(t), IS_REPLAYING(t), HAS_ENDED(t), PASSES(t))
  }

  ghost predicate Moved(c: Tally, x: Tally, d: Tally, y: Tally) {
    && d.up + x.up == c.up + y.up
    && d.replaying + x.replaying == c.replaying + y.replaying
    && d.ended + x.ended == c.ended + y.ended
    && d.passes + x.passes == c.passes + y.passes
    && x.replaying <= c.replaying
  }

  lemma TallyUpdate(ts: seq<Thread>, k: nat, x: Thread)
    requires k < |ts|
    ensures Moved(TallyOf(ts), Share(ts[k]), TallyOf(ts[k := x]), Share(x))
  {
    SumUpdate(ts, IS_UP, k, x);
    SumUpdate(ts, IS_REPLAYING, k, x);
    SumUpdate(ts, HAS_ENDED, k, x);
    SumUpdate(ts, PASSES, k, x);
    SumTerm(ts, IS_REPLAYING, k);
  }

  lemma TallyBound(ts: seq<Thread>)
    ensures TallyOf(ts).up <= |ts| && TallyOf(ts).ended <= |ts|
    ensures TallyOf(ts).up == |ts| ==> forall k :: 0 <= k < |ts| ==> ts[k].pc != Starting
    ensures TallyOf(ts).ended == |ts| ==> forall k :: 0 <= k < |ts| ==> ts[k].pc == Ended
  {
    SumBound(ts, IS_UP, 1);
    SumBound(ts, HAS_ENDED, 1);
    forall k | 0 <= k < |ts| && Sum(ts, IS_UP) == |ts| ensures ts[k].pc != Starting {
      assert IS_UP(ts[k]) == 1;
    }
    forall k | 0 <= k < |ts| && Sum(ts, HAS_ENDED) == |ts| ensures ts[k].pc == Ended {
      assert HAS_ENDED(ts[k]) == 1;
    }
  }

  lemma ThreadKeepsThreads(iterations: nat, s: State, t: State, k: nat)
    requires ThreadsOk(iterations, s.threads) && ThreadStep(s, t, k)
    ensures ThreadsOk(iterations, t.threads) && t.threads == s.threads[k := t.threads[k]]
  {
    assert ThreadOk(iterations, s.threads[k]);
  }

  lemma ThreadKeepsBalance(nfiles: nat, iterations: nat, s: State, t: State, k: nat, c: Tally, d: Tally)
    requires ThreadStep(s, t, k) && Balanced(nfiles, iterations, s, c) && |s.threads| == nfiles
    requires Moved(c, Share(s.threads[k]), d, Share(t.threads[k]))
    requires c.up <= nfiles && c.ended <= nfiles && d.up <= nfiles && d.ended <= nfiles
    ensures Balanced(nfiles, iterations, t, d)
  {
    assert t.main == s.main;
  }

  lemma ThreadKeepsInv(nfiles: nat, iterations: nat, s: State, t: State, k: nat)
    requires Inv(nfiles, iterations, s) && ThreadStep(s, t, k)
    ensures Inv(nfiles, iterations, t)
  {
    ThreadKeepsThreads(iterations, s, t, k);
    TallyUpdate(s.threads, k, t.threads[k]);
    TallyBound(s.threads);
    TallyBound(t.threads);
    ThreadKeepsBalance(nfiles, iterations, s, t, k, TallyOf(s.threads), TallyOf(t.threads));
  }

  lemma MainKeepsBalance(nfiles: nat, iterations: nat, s: State, t: State, c: Tally)
    requires MainStep(iterations, s, t) && Balanced(nfiles, iterations, s, c) && |s.threads| == nfiles
    requires c.up <= nfiles && c.ended <= nfiles
    ensures Balanced(nfiles, iterations, t, c)
  {
    if s.main.AwaitIters? {
      assert (s.main.i + 1) * nfiles == s.main.i * nfiles + nfiles;
    }
  }

  lemma MainKeepsInv(nfiles: nat, iterations: nat, s: State, t: State)
    requires Inv(nfiles, iterations, s) && MainStep(iterations, s, t)
    ensures Inv(nfiles, iterations, t)
  {
    TallyBound(s.threads);
    MainKeepsBalance(nfiles, iterations, s, t, TallyOf(s.threads));
  }

  lemma {:induction false} RunKeepsInv(nfiles: nat, iterations: nat, states: seq<State>, j: nat)
    requires Run(nfiles, iterations, states) && j < |states|
    ensures Inv(nfiles, iterations, states[j])
  {
    if j == 0 {
      Initially(nfiles, iterations);
    } else {
      RunKeepsInv(nfiles, iterations, states, j - 1);
      var s, t := states[j - 1], states[j];
      assert Step(iterations, s, t);
      if MainStep(iterations, s, t) {
        MainKeepsInv(nfiles, iterations, s, t);
      } else {
        var k :| ThreadStep(s, t, k);
        ThreadKeepsInv(nfiles, iterations, s, t, k);
      }
    }
  }

  // ---------- the main results ----------

  /** The asserts of `__set_cv` and `wait_iter_start` that thread `x` may be about to meet. */
  ghost predicate ThreadAsserts(s: State, x: Thread) {
    var nfiles := |s.threads|;
    match x.pc
    case Starting => s.nReady < nfiles
    case Testing => x.left == 0 ==> s.nReplaysDone < nfiles
    case AtStart => s.iterStart != 0 ==> 1 <= s.iterStart <= nfiles
    case Replaying => s.nItersDone < nfiles
    case Ended => true
  }

  /** All asserts of the barrier; main's is in `start_iter`. */
  ghost predicate AssertsHold(s: State) {
    && (s.main.StartIter? ==> s.iterStart == 0)
    && forall k :: 0 <= k < |s.threads| ==> ThreadAsserts(s, s.threads[k])
  }

  /** No assert of the barrier can fail, in any run. */
  lemma AssertsHoldInRuns(nfiles: nat, iterations: nat, states: seq<State>, j: nat)
    requires Run(nfiles, iterations, states) && j < |states|
    ensures AssertsHold(states[j])
  {
    RunKeepsInv(nfiles, iterations, states, j);
    var s := states[j];
    var c := TallyOf(s.threads);
    TallyBound(s.threads);
    forall k | 0 <= k < nfiles && s.threads[k].pc == Replaying ensures c.replaying >= 1 {
      SumTerm(s.threads, IS_REPLAYING, k);
    }
  }

  /** No thread is ever ahead of its share: never more passes than iterations. */
  lemma PassesWithinShare(nfiles: nat, iterations: nat, states: seq<State>, j: nat, k: nat)
    requires Run(nfiles, iterations, states) && j < |states| && k < nfiles
    ensures k < |states[j].threads| && states[j].threads[k].passes <= iterations
  {
    RunKeepsInv(nfiles, iterations, states, j);
    assert ThreadOk(iterations, states[j].threads[k]);
  }

  /**
    Once main is through its rounds, every thread has made exactly `iterations` passes,
    however the tokens of the single rounds went round.
   */
  lemma EveryThreadMadeItsPasses(nfiles: nat, iterations: nat, states: seq<State>, j: nat, k: nat)
    requires Run(nfiles, iterations, states) && j < |states| && k < nfiles
    requires states[j].main.AwaitReplays? || states[j].main.Finished?
    ensures k < |states[j].threads| && states[j].threads[k].passes == iterations
  {
    RunKeepsInv(nfiles, iterations, states, j);
    var s := states[j];
    forall i | 0 <= i < nfiles ensures PASSES(s.threads[i]) <= iterations {
      PassesWithinShare(nfiles, iterations, states, j, i);
    }
    SumBound(s.threads, PASSES, iterations);
    assert PASSES(s.threads[k]) == iterations;
  }

  lemma {:induction false} SomeCounts(ts: seq<Thread>, f: Thread -> nat) returns (k: nat)
    requires Sum(ts, f) > 0
    ensures k < |ts| && f(ts[k]) > 0
  {
    if f(ts[0]) > 0 {
      k := 0;
    } else {
      k := SomeCounts(ts[1..], f);
      k := k + 1;
    }
  }

  /** While main is held up, some thread is not. */
  lemma SomeoneCanMove(nfiles: nat, iterations: nat, s: State) returns (k: nat)
    requires Inv(nfiles, iterations, s)
    requires !MainCan(s) && !s.main.Finished?
    ensures k < nfiles && ThreadCan(s, s.threads[k])
  {
    TallyBound(s.threads);
    if Sum(s.threads, IS_REPLAYING) > 0 {
      k := SomeCounts(s.threads, IS_REPLAYING);
    } else if s.main.AwaitReady? {
      k := NotAll(s.threads, IS_UP);
    } else {
      NotAllEnded(nfiles, iterations, s);
      k := NotAll(s.threads, HAS_ENDED);
      if s.main.AwaitReplays? {
        SumBound(s.threads, PASSES, iterations);
        assert PASSES(s.threads[k]) == iterations;
      }
    }
  }

  lemma {:induction false} RoundsMissing(i: nat, iterations: nat, nfiles: nat)
    requires i < iterations
    ensures i * nfiles + nfiles <= iterations * nfiles
    decreases iterations - i
  {
    assert (i + 1) * nfiles == i * nfiles + nfiles;
    if i + 1 < iterations {
      RoundsMissing(i + 1, iterations, nfiles);
    }
  }

  lemma NotAllEnded(nfiles: nat, iterations: nat, s: State)
    requires Inv(nfiles, iterations, s)
    requires !MainCan(s) && (s.main.AwaitIters? || s.main.AwaitReplays?)
    ensures Sum(s.threads, HAS_ENDED) < nfiles
  {
    TallyBound(s.threads);
    if s.main.AwaitIters? {
      RoundsMissing(s.main.i, iterations, nfiles);
      if Sum(s.threads, HAS_ENDED) == nfiles {
        SumOfEqual(s.threads, PASSES, iterations);
      }
    }
  }

  lemma {:induction false} SumOfEqual(ts: seq<Thread>, f: Thread -> nat, m: nat)
    requires forall i :: 0 <= i < |ts| ==> f(ts[i]) == m
    ensures Sum(ts, f) == m * |ts|
  {
    if ts != [] {
      SumOfEqual(ts[1..], f, m);
      assert m * |ts| == m + m * |ts[1..]|;
    }
  }

  lemma {:induction false} NotAll(ts: seq<Thread>, f: Thread -> nat) returns (k: nat)
    requires Sum(ts, f) < |ts|
    ensures k < |ts| && f(ts[k]) == 0
  {
    if f(ts[0]) == 0 {
      k := 0;
    } else {
      k := NotAll(ts[1..], f);
      k := k + 1;
    }
  }

  /** Some step is possible until main has finished: the barrier never deadlocks. */
  lemma NoDeadlock(nfiles: nat, iterations: nat, states: seq<State>, j: nat)
    requires Run(nfiles, iterations, states) && j < |states| && !states[j].main.Finished?
    ensures exists t :: Step(iterations, states[j], t)
  {
    RunKeepsInv(nfiles, iterations, states, j);
    var s := states[j];
    if MainCan(s) {
      assert Step(iterations, s, AfterMain(iterations, s));
    } else {
      var k := SomeoneCanMove(nfiles, iterations, s);
      assert ThreadStep(s, AfterThread(s, k), k);
      assert Step(iterations, s, AfterThread(s, k));
    }
  }

  lemma Prolong(nfiles: nat, iterations: nat, run: seq<State>, t: State) returns (longer: seq<State>)
    requires Run(nfiles, iterations, run) && Step(iterations, run[|run| - 1], t)
    ensures Run(nfiles, iterations, longer) && longer[|longer| - 1] == t
  {
    longer := run + [t];
    forall i | 0 <= i < |longer| - 1 ensures Step(iterations, longer[i], longer[i + 1]) {
      if i < |run| - 1 {
        assert Step(iterations, run[i], run[i + 1]);
      }
    }
  }

  lemma ByThread(nfiles: nat, iterations: nat, run: seq<State>, k: nat) returns (longer: seq<State>)
    requires Run(nfiles, iterations, run)
    requires var s := run[|run| - 1]; k < |s.threads| && ThreadCan(s, s.threads[k])
    ensures Run(nfiles, iterations, longer) && longer[|longer| - 1] == AfterThread(run[|run| - 1], k)
  {
    var s := run[|run| - 1];
    assert ThreadStep(s, AfterThread(s, k), k);
    longer := Prolong(nfiles, iterations, run, AfterThread(s, k));
  }

  lemma ByMain(nfiles: nat, iterations: nat, run: seq<State>) returns (longer: seq<State>)
    requires Run(nfiles, iterations, run) && MainCan(run[|run| - 1])
    ensures Run(nfiles, iterations, longer) && longer[|longer| - 1] == AfterMain(iterations, run[|run| - 1])
  {
    longer := Prolong(nfiles, iterations, run, AfterMain(iterations, run[|run| - 1]));
  }

  // ---------- every run ends ----------

  /** The steps that a thread has before it. */
  const TODO: Thread -> nat := (t: Thread) =>
    match t.pc
    case Starting => 2 + 3 * t.left
    case Testing => 1 + 3 * t.left
    case AtStart => 3 + 3 * t.left
    case Replaying => 2 + 3 * t.left
    case Ended => 0

  /** The steps that main has before it. */
  function MainTodo(iterations: nat, m: Main): int {
    match m
    case AwaitReady => 2 + 2 * iterations
    case StartIter(i) => 1 + 2 * (iterations - i)
    case AwaitIters(i) => 2 * (iterations - i)
    case AwaitReplays => 1
    case Finished => 0
  }

  function StepsInAll(nfiles: nat, iterations: nat): int {
    nfiles * (2 + 3 * iterations) + 2 + 2 * iterations
  }

  lemma ThreadStepIsOneLess(s: State, t: State, k: nat)
    requires ThreadStep(s, t, k)
    ensures t.threads == s.threads[k := t.threads[k]] && t.main == s.main
    ensures TODO(t.threads[k]) == TODO(s.threads[k]) - 1
  {
  }

  lemma MainStepIsOneLess(iterations: nat, s: State, t: State)
    requires MainStep(iterations, s, t) && (s.main.StartIter? || s.main.AwaitIters? ==> s.main.i < iterations)
    ensures t.threads == s.threads && MainTodo(iterations, t.main) == MainTodo(iterations, s.main) - 1
  {
  }

  lemma StepIsOneLess(nfiles: nat, iterations: nat, s: State, t: State)
    requires Balanced(nfiles, iterations, s, TallyOf(s.threads)) && Step(iterations, s, t)
    ensures MainTodo(iterations, t.main) + Sum(t.threads, TODO)
      == MainTodo(iterations, s.main) + Sum(s.threads, TODO) - 1
  {
    if MainStep(iterations, s, t) {
      MainStepIsOneLess(iterations, s, t);
    } else {
      var k: nat :| ThreadStep(s, t, k);
      ThreadStepIsOneLess(s, t, k);
      SumUpdate(s.threads, TODO, k, t.threads[k]);
    }
  }

  lemma {:induction false} StepsMade(nfiles: nat, iterations: nat, states: seq<State>, j: nat)
    requires Run(nfiles, iterations, states) && j < |states|
    ensures j + MainTodo(iterations, states[j].main) + Sum(states[j].threads, TODO) == StepsInAll(nfiles, iterations)
  {
    if j == 0 {
      SumOfEqual(states[0].threads, TODO, 2 + 3 * iterations);
    } else {
      StepsMade(nfiles, iterations, states, j - 1);
      RunKeepsInv(nfiles, iterations, states, j - 1);
      assert Step(iterations, states[j - 1], states[j]);
      StepIsOneLess(nfiles, iterations, states[j - 1], states[j]);
    }
  }

  /**
    No run is longer than the passes of all threads take, and main has finished exactly
    in the runs that are as long as that.  As there is no deadlock, main always finishes.
   */
  lemma EveryRunEnds(nfiles: nat, iterations: nat, states: seq<State>)
    requires Run(nfiles, iterations, states)
    ensures |states| - 1 <= StepsInAll(nfiles, iterations)
    ensures states[|states| - 1].main.Finished? <==> |states| - 1 == StepsInAll(nfiles, iterations)
  {
    var j := |states| - 1;
    StepsMade(nfiles, iterations, states, j);
    RunKeepsInv(nfiles, iterations, states, j);
    var s := states[j];
    if s.main.Finished? {
      TallyBound(s.threads);
      SumZero(s.threads, TODO);
    }
  }

  // ---------- what a round is ----------

  /** Between two rounds, and after the last, every thread has made as many passes as there were rounds. */
  ghost predicate InStep(iterations: nat, s: State) {
    s.main.StartIter? || s.main.AwaitReplays? ==>
      forall k :: 0 <= k < |s.threads| ==> s.threads[k].passes == Rounds(iterations, s.main)
  }

  /** In every run a round is one pass of each thread. */
  ghost predicate RoundsArePasses(nfiles: nat, iterations: nat) {
    forall states: seq<State>, j :: Run(nfiles, iterations, states) && 0 <= j < |states| ==>
      InStep(iterations, states[j])
  }

  lemma FewAreInStep(nfiles: nat, iterations: nat, states: seq<State>, j: nat)
    requires nfiles <= 1 || iterations <= 1
    requires Run(nfiles, iterations, states) && j < |states|
    ensures InStep(iterations, states[j])
  {
    RunKeepsInv(nfiles, iterations, states, j);
    var s := states[j];
    forall k | 0 <= k < |s.threads| && (s.main.StartIter? || s.main.AwaitReplays?)
      ensures s.threads[k].passes == Rounds(iterations, s.main)
    {
      if s.main.AwaitReplays? {
        EveryThreadMadeItsPasses(nfiles, iterations, states, j, k);
      } else {
        SumTerm(s.threads, PASSES, k);
        if nfiles == 1 {
          SumOfEqual(s.threads, PASSES, s.threads[0].passes);
        }
      }
    }
  }

  /** A thread as it is before its first pass. */
  function Fresh(iterations: nat): Thread { Thread(Testing, iterations, 0) }

  /** All threads from the `i`-th on are still to report that they are up. */
  ghost predicate ComingUp(nfiles: nat, iterations: nat, s: State, i: nat) {
    && |s.threads| == nfiles && s.main == AwaitReady && s.nReady == i && s.iterStart == s.nItersDone == 0
    && forall k :: 0 <= k < nfiles ==>
         s.threads[k] == if k < i then Fresh(iterations) else Thread(Starting, iterations, 0)
  }

  lemma {:induction false} AllComeUp(nfiles: nat, iterations: nat, run: seq<State>, i: nat) returns (longer: seq<State>)
    requires Run(nfiles, iterations, run) && i <= nfiles && ComingUp(nfiles, iterations, run[|run| - 1], i)
    ensures Run(nfiles, iterations, longer) && ComingUp(nfiles, iterations, longer[|longer| - 1], nfiles)
    decreases nfiles - i
  {
    longer := run;
    if i < nfiles {
      longer := ByThread(nfiles, iterations, run, i);
      longer := AllComeUp(nfiles, iterations, longer, i + 1);
    }
  }

  /** The first round after `i` passes, none of which was made by thread 1 or by a thread from the `i`-th on. */
  ghost predicate WithoutOne(nfiles: nat, iterations: nat, s: State, i: nat) {
    && |s.threads| == nfiles && s.main == AwaitIters(0) && i <= nfiles && s.iterStart == nfiles - i && s.nItersDone == i
    && forall k :: 0 <= k < nfiles && (k == 1 || k >= i) ==> s.threads[k] == Fresh(iterations)
  }

  /** Thread `k` takes a token and makes its next pass. */
  lemma OnePass(nfiles: nat, iterations: nat, run: seq<State>, i: nat, k: nat) returns (longer: seq<State>)
    requires Run(nfiles, iterations, run) && WithoutOne(nfiles, iterations, run[|run| - 1], i) && i < nfiles
    requires k <= i && k != 1
    requires var x := run[|run| - 1].threads[k]; x.pc == Testing && x.left > 0
    ensures Run(nfiles, iterations, longer) && WithoutOne(nfiles, iterations, longer[|longer| - 1], i + 1)
    ensures var x, y := run[|run| - 1].threads[k], longer[|longer| - 1].threads[k];
      y == Thread(Testing, x.left - 1, x.passes + 1)
  {
    longer := ByThread(nfiles, iterations, run, k);
    longer := ByThread(nfiles, iterations, longer, k);
    longer := ByThread(nfiles, iterations, longer, k);
  }

  lemma {:induction false} TheOthersPass(nfiles: nat, iterations: nat, run: seq<State>, i: nat)
    returns (longer: seq<State>)
    requires iterations >= 1 && 2 <= i <= nfiles
    requires Run(nfiles, iterations, run) && WithoutOne(nfiles, iterations, run[|run| - 1], i)
    ensures Run(nfiles, iterations, longer) && WithoutOne(nfiles, iterations, longer[|longer| - 1], nfiles)
    decreases nfiles - i
  {
    longer := run;
    if i < nfiles {
      longer := OnePass(nfiles, iterations, run, i, i);
      longer := TheOthersPass(nfiles, iterations, longer, i + 1);
    }
  }

  /** Thread 0 takes the token of thread 1 in the first round. */
  lemma TokenTaken(nfiles: nat, iterations: nat) returns (run: seq<State>)
    requires nfiles >= 2 && iterations >= 2
    ensures Run(nfiles, iterations, run) && !InStep(iterations, run[|run| - 1])
  {
    run := [Initial(nfiles, iterations)];
    run := AllComeUp(nfiles, iterations, run, 0);
    run := ByMain(nfiles, iterations, run);
    run := ByMain(nfiles, iterations, run);
    run := OnePass(nfiles, iterations, run, 0, 0);
    run := OnePass(nfiles, iterations, run, 1, 0);
    run := TheOthersPass(nfiles, iterations, run, 2);
    run := ByMain(nfiles, iterations, run);
    assert run[|run| - 1].threads[1] == Fresh(iterations);
  }

  /** Rounds are passes of each thread if and only if there is one thread at most, or one round. */
  lemma RoundsArePassesIff(nfiles: nat, iterations: nat)
    ensures RoundsArePasses(nfiles, iterations) <==> nfiles <= 1 || iterations <= 1
  {
    if nfiles <= 1 || iterations <= 1 {
      forall states: seq<State>, j | Run(nfiles, iterations, states) && 0 <= j < |states|
        ensures InStep(iterations, states[j])
      {
        FewAreInStep(nfiles, iterations, states, j);
      }
    } else {
      var run := TokenTaken(nfiles, iterations);
      assert Run(nfiles, iterations, run) && 0 <= |run| - 1 < |run|;
    }
  }
}

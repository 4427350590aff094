/**
  btreplay's two threads for one input file: one submits I/Os, the other reclaims the
  completed ones.  They share two lists of control blocks, two counters and four flags.
  A step is one critical section, one unguarded read, or one call into the kernel; the
  threads and the kernel take steps in any order.  A wait on the condition variable may end
  at any time; a step that needs no such luck is `Prompted`.
 */
module Replay {
  import opened Common

  /** The names of the control blocks. */
  type Iocb = nat

  /** The number of packets in a bunch. */
  type BunchSize = n: nat | 0 < n <= BT_MAX_PKTS witness 1

  /** What the two threads share, all of it in `struct thr_info`. */
  datatype Shared = Shared(
    free: seq<Iocb>, used: seq<Iocb>,
    naiosFree: int, naiosOut: int,
    sendWait: bool, reapWait: bool, sendDone: bool, reapDone: bool)

  /** All the blocks of a file, as `tip_init` lines them up. */
  function Blocks(naios: nat): (s: seq<Iocb>)
    ensures |s| == naios
  {
    if naios == 0 then [] else Blocks(naios - 1) + [naios - 1]
  }

  // ---------- the critical sections ----------

  function RemovedAll(s: seq<Iocb>, xs: seq<Iocb>): seq<Iocb>
    decreases xs
  {
    if xs == [] then s else RemovedAll(Without(s, xs[0]), xs[1..])
  }

  /** `iocbs_map`: the first `n` free blocks become the last used ones. */
  function Mapped(sh: Shared, n: nat): Shared
    requires n <= |sh.free|
  {
    sh.(free := sh.free[n..], used := sh.used + sh.free[..n], naiosFree := sh.naiosFree - n)
  }

  /** After `io_submit`: only now are the submitted blocks counted as out. */
  function Counted(sh: Shared, n: nat): Shared {
    sh.(naiosOut := sh.naiosOut + n, reapWait := false)
  }

  /** In `reclaim_ios`: the blocks of the events go back to the end of the free list. */
  function Reclaimed(sh: Shared, events: seq<Iocb>): Shared {
    sh.(free := sh.free + events, used := RemovedAll(sh.used, events),
        naiosFree := sh.naiosFree + |events|, naiosOut := sh.naiosOut - |events|, sendWait := false)
  }

  /** The shared structure as the threads update it, one method for each critical section. */
  class Tip {
    var free: seq<Iocb>
    var used: seq<Iocb>
    var naiosFree: int
    var naiosOut: int
    var sendWait: bool
    var reapWait: bool
    var sendDone: bool
    var reapDone: bool

    function Abs(): Shared
      reads this
    {
      Shared(free, used, naiosFree, naiosOut, sendWait, reapWait, sendDone, reapDone)
    }

    /** `tip_init` */
    constructor (naios: nat)
      ensures Abs() == Initial(naios).sh
    {
      free, used := [], [];
      naiosFree, naiosOut := naios, 0;
      sendWait, reapWait, sendDone, reapDone := false, false, false, false;
      new;
      for i := 0 to naios
        invariant free == Blocks(i) && used == [] && naiosFree == naios && naiosOut == 0
        invariant !sendWait && !reapWait && !sendDone && !reapDone
      {
        free := free + [i];
      }
    }

    /** The blocks for the next `ntodo` packets, taken one by one from the head of the free list. */
    method IocbsMap(ntodo: nat) returns (list: seq<Iocb>)
      requires ntodo <= |free|
      modifies this
      ensures Abs() == Mapped(old(Abs()), ntodo) && list == old(free)[..ntodo]
    {
      list := [];
      for i := 0 to ntodo
        invariant list == old(free)[..i] && free == old(free)[i..] && used == old(used) + list
        invariant naiosFree == old(naiosFree) && naiosOut == old(naiosOut)
        invariant sendWait == old(sendWait) && reapWait == old(reapWait)
        invariant sendDone == old(sendDone) && reapDone == old(reapDone)
      {
        var iocb := free[0];
        free, used := free[1..], used + [iocb];
        list := list + [iocb];
      }
      naiosFree := naiosFree - ntodo;
    }

    method CountOut(ndone: nat)
      modifies this
      ensures Abs() == Counted(old(Abs()), ndone)
    {
      naiosOut := naiosOut + ndone;
      if reapWait {
        reapWait := false;
      }
    }

    /** The locked part of `reclaim_ios`; returns how many more are known to be out. */
    method Reclaim(events: seq<Iocb>, naiosOutSeen: int) returns (more: int)
      modifies this
      ensures Abs() == Reclaimed(old(Abs()), events) && more == Min(naiosOutSeen, naiosOut)
    {
      for i := 0 to |events|
        invariant free == old(free) + events[..i]
        invariant RemovedAll(used, events[i..]) == RemovedAll(old(used), events)
        invariant naiosFree == old(naiosFree) && naiosOut == old(naiosOut)
        invariant sendWait == old(sendWait) && reapWait == old(reapWait)
        invariant sendDone == old(sendDone) && reapDone == old(reapDone)
      {
        assert events[i..][1..] == events[i + 1..];
        used := Without(used, events[i]);
        free := free + [events[i]];
      }
      assert events[..|events|] == events;
      naiosFree := naiosFree + |events|;
      naiosOut := naiosOut - |events|;
      more := Min(naiosOutSeen, naiosOut);
      if sendWait {
        sendWait := false;
      }
    }
  }

  // ---------- where the threads are ----------

  datatype Sub =
    | NextBunch                          // reading the next bunch, or at the end of a pass
    | AskFree(todo: nat)                 // nfree_current, about to look at naios_free
    | FreeWait(todo: nat)                // nfree_current, in pthread_cond_wait
    | GotFree(todo: nat, ntodo: nat)     // about to map ntodo of the todo packets left
    | Ready(todo: nat, list: seq<Iocb>)  // mapped, stalling, about to call io_submit
    | Sent(todo: nat, ndone: nat)        // io_submit returned, not counted yet
    | SubDone

  datatype Rec =
    | Top                                // is_reap_done: about to read send_done
    | TopOut                             // send_done was set, about to read naios_out
    | AskOut                             // about to look at naios_out under the mutex
    | OutWait                            // in pthread_cond_wait
    | Seen(n: nat)                       // about to leave reap_wait_aios
    | GetEvents(n: nat)                  // in io_getevents
    | Got(n: nat, events: seq<Iocb>)     // io_getevents returned
    | Leaving                            // reap_wait_aios returned 0
    | RecDone

  /** `inKernel` are accepted and running, `finished` are complete and wait to be fetched. */
  datatype State = State(sh: Shared, inKernel: seq<Iocb>, finished: seq<Iocb>, sub: Sub, rec: Rec)

  function Initial(naios: nat): State {
    State(Shared(Blocks(naios), [], naios, 0, false, false, false, false), [], [], NextBunch, Top)
  }

  // ---------- the steps ----------

  ghost predicate SubStep(s: State, t: State) {
    t == s.(sh := t.sh, sub := t.sub, inKernel := t.inKernel) &&
    match s.sub
    case NextBunch =>
      // a bunch of at least one packet, or the end of the last pass
      || (t.sub.AskFree? && 0 < t.sub.todo <= BT_MAX_PKTS && t.sh == s.sh && t.inKernel == s.inKernel)
      || (t.sub == SubDone && t.sh == s.sh.(sendDone := true) && t.inKernel == s.inKernel)
    case AskFree(todo) =>
      && t.inKernel == s.inKernel
      && (if s.sh.naiosFree == 0
          then t.sh == s.sh.(sendWait := true) && t.sub == FreeWait(todo)
          else t.sh == s.sh && t.sub.GotFree? && t.sub.todo == todo && t.sub.ntodo as int == Min(s.sh.naiosFree, todo))
    case FreeWait(todo) =>
      t.sh == s.sh && t.sub == AskFree(todo) && t.inKernel == s.inKernel
    case GotFree(todo, ntodo) =>
      ntodo <= |s.sh.free| && t.sh == Mapped(s.sh, ntodo)
        && t.sub == Ready(todo, s.sh.free[..ntodo]) && t.inKernel == s.inKernel
    case Ready(todo, list) =>
      t.sh == s.sh && t.inKernel == s.inKernel + list && t.sub == Sent(todo, |list|)
    case Sent(todo, ndone) =>
      && t.inKernel == s.inKernel && t.sh == Counted(s.sh, ndone) && ndone <= todo
      && t.sub == (if todo == ndone then NextBunch else AskFree(todo - ndone))
    case SubDone => false
  }

  ghost predicate RecStep(s: State, t: State) {
    t == s.(sh := t.sh, rec := t.rec, finished := t.finished) &&
    match s.rec
    case Top =>
      t.sh == s.sh && t.finished == s.finished && t.rec == (if s.sh.sendDone then TopOut else AskOut)
    case TopOut =>
      t.sh == s.sh && t.finished == s.finished && t.rec == (if s.sh.naiosOut == 0 then Seen(0) else AskOut)
    case AskOut =>
      && t.finished == s.finished
      && (if s.sh.naiosOut == 0
          then t.sh == s.sh.(reapWait := true) && t.rec == OutWait
          else t.sh == s.sh && t.rec.Seen? && t.rec.n as int == s.sh.naiosOut)
    case OutWait =>
      t.sh == s.sh && t.finished == s.finished && t.rec == AskOut
    case Seen(n) =>
      && t.sh == s.sh && t.finished == s.finished
      && t.rec == (if (s.sh.sendDone && s.sh.naiosOut == 0) || n == 0 then Leaving else GetEvents(n))
    case GetEvents(n) =>
      && t.sh == s.sh && t.rec.Got? && t.rec.n == n && 0 < |t.rec.events| <= n
      && s.finished == t.rec.events + t.finished
    case Got(n, events) =>
      && t.finished == s.finished && t.sh == Reclaimed(s.sh, events)
      && (var more := Min(n, t.sh.naiosOut);
          t.rec == (if more > 0 then GetEvents(more) else Top))
    case Leaving =>
      t.finished == s.finished && t.sh == s.sh.(reapDone := true) && t.rec == RecDone
    case RecDone => false
  }

  /** The kernel completes any one of its requests. */
  ghost predicate KernelStep(s: State, t: State) {
    exists i :: 0 <= i < |s.inKernel|
      && t == s.(inKernel := s.inKernel[..i] + s.inKernel[i + 1..], finished := s.finished + [s.inKernel[i]])
  }

  ghost predicate Step(s: State, t: State) {
    SubStep(s, t) || RecStep(s, t) || KernelStep(s, t)
  }

  ghost predicate Run(naios: nat, states: seq<State>) {
    && states != [] && states[0] == Initial(naios)
    && forall i :: 0 <= i < |states| - 1 ==> Step(states[i], states[i + 1])
  }

  // ---------- the invariant ----------

  /** Mapped, but not handed to the kernel yet. */
  function OnTheWay(s: State): seq<Iocb> { if s.sub.Ready? then s.sub.list else [] }

  /** Fetched from the kernel, but not on the free list yet. */
  function OnTheWayBack(s: State): seq<Iocb> { if s.rec.Got? then s.rec.events else [] }

  /** Handed to the kernel, but not counted in naios_out yet. */
  function Uncounted(s: State): nat { if s.sub.Sent? then s.sub.ndone else 0 }

  /** Accepted by the kernel and not reclaimed. */
  function Accepted(s: State): nat { |s.inKernel| + |s.finished| + |OnTheWayBack(s)| }

  ghost function Count(s: seq<Iocb>, x: Iocb): nat { multiset(s)[x] }

  lemma CountPlus(a: seq<Iocb>, b: seq<Iocb>, x: Iocb)
    ensures Count(a + b, x) == Count(a, x) + Count(b, x)
  {
  }

  lemma CountParts(a: seq<Iocb>, n: nat, x: Iocb)
    requires n <= |a|
    ensures Count(a, x) == Count(a[..n], x) + Count(a[n..], x)
  {
    assert a == a[..n] + a[n..];
  }

  ghost predicate OnOneList(naios: nat, sh: Shared, x: Iocb) {
    Count(sh.free, x) + Count(sh.used, x) == if x < naios then 1 else 0
  }

  ghost predicate OnItsRound(s: State, x: Iocb) {
    Count(s.sh.used, x) == Count(OnTheWay(s), x) + Count(s.inKernel, x)
      + Count(s.finished, x) + Count(OnTheWayBack(s), x)
  }

  /** Every block is on one of the two lists, once, and the used ones are somewhere on their round. */
  ghost predicate Lists(naios: nat, s: State) {
    (forall x: Iocb :: OnOneList(naios, s.sh, x)) && (forall x: Iocb :: OnItsRound(s, x))
  }

  /** The counter lags behind the kernel by what was sent and not counted; what each thread relies on. */
  ghost predicate Counts(s: State) {
    && s.sh.naiosOut + Uncounted(s) == Accepted(s) && s.sh.naiosOut >= 0
    && s.sh.naiosFree == |s.sh.free|
    // a thread that waits for a signal waits with reason
    && (s.sh.sendWait ==> s.sh.naiosFree == 0) && (s.sub.FreeWait? && s.sh.naiosFree == 0 ==> s.sh.sendWait)
    && (s.sh.reapWait ==> s.sh.naiosOut == 0) && (s.rec.OutWait? && s.sh.naiosOut == 0 ==> s.sh.reapWait)
    // the submitter
    && (s.sub.SubDone? <==> s.sh.sendDone)
    && (s.sub.GotFree? ==> 0 < s.sub.ntodo <= s.sub.todo && s.sub.ntodo <= |s.sh.free|)
    && (s.sub.Ready? ==> 0 < |s.sub.list| <= s.sub.todo)
    && (s.sub.Sent? ==> 0 < s.sub.ndone <= s.sub.todo)
    && (s.sub.AskFree? || s.sub.FreeWait? ==> s.sub.todo > 0)
    // the reclaimer
    && (s.rec.TopOut? ==> s.sh.sendDone)
    && (s.rec.Seen? ==> s.rec.n <= s.sh.naiosOut && (s.rec.n == 0 ==> s.sh.sendDone && s.sh.naiosOut == 0))
    && (s.rec.GetEvents? ==> 0 < s.rec.n <= s.sh.naiosOut)
    && (s.rec.Got? ==> 0 < |s.rec.events| <= s.rec.n <= s.sh.naiosOut)
    && (s.rec.Leaving? || s.rec.RecDone? ==> s.sh.sendDone && s.sh.naiosOut == 0)
    && (s.sh.reapDone ==> s.rec.RecDone?)
  }

  ghost predicate Inv(naios: nat, s: State) {
    Lists(naios, s) && Counts(s)
  }

  lemma {:induction false} RemovedAllCounts(s: seq<Iocb>, xs: seq<Iocb>, x: Iocb)
    requires multiset(xs) <= multiset(s)
    ensures Count(s, x) == Count(RemovedAll(s, xs), x) + Count(xs, x)
    decreases xs
  {
    if xs != [] {
      assert xs == [xs[0]] + xs[1..];
      assert multiset(xs) == multiset{xs[0]} + multiset(xs[1..]);
      assert multiset(xs)[xs[0]] > 0;
      assert xs[0] in s;
      WithoutCounts(s, xs[0]);
      forall y ensures multiset(xs[1..])[y] <= multiset(Without(s, xs[0]))[y] {
        assert multiset(xs)[y] <= multiset(s)[y];
      }
      RemovedAllCounts(Without(s, xs[0]), xs[1..], x);
    }
  }

  lemma {:induction false} BlocksOnce(naios: nat, x: Iocb)
    ensures Count(Blocks(naios), x) == if x < naios then 1 else 0
  {
    if naios > 0 {
      BlocksOnce(naios - 1, x);
    }
  }

  lemma Initially(naios: nat)
    ensures Inv(naios, Initial(naios))
  {
    forall x: Iocb ensures OnOneList(naios, Initial(naios).sh, x) {
      BlocksOnce(naios, x);
    }
  }

  lemma SubKeepsCounts(s: State, t: State)
    requires Counts(s) && SubStep(s, t)
    ensures Counts(t)
  {
  }

  lemma SubKeepsLists(naios: nat, s: State, t: State)
    requires Lists(naios, s) && SubStep(s, t)
    ensures Lists(naios, t)
  {
    forall x: Iocb ensures OnOneList(naios, t.sh, x) && OnItsRound(t, x) {
      assert OnOneList(naios, s.sh, x) && OnItsRound(s, x);
      SubKeepsPlace(naios, s, t, x);
    }
  }

  lemma SubKeepsPlace(naios: nat, s: State, t: State, x: Iocb)
    requires OnOneList(naios, s.sh, x) && OnItsRound(s, x) && SubStep(s, t)
    ensures OnOneList(naios, t.sh, x) && OnItsRound(t, x)
  {
    match s.sub
    case GotFree(todo, ntodo) => MapKeepsPlace(naios, s, t, ntodo, x);
    case Ready(todo, list) => CountPlus(s.inKernel, list, x);
    case SubDone =>
    case _ => assert t.sh.free == s.sh.free && t.sh.used == s.sh.used && OnTheWay(t) == OnTheWay(s);
  }

  lemma MapKeepsPlace(naios: nat, s: State, t: State, n: nat, x: Iocb)
    requires OnOneList(naios, s.sh, x) && OnItsRound(s, x) && OnTheWay(s) == [] && n <= |s.sh.free|
    requires t == s.(sh := Mapped(s.sh, n), sub := t.sub) && OnTheWay(t) == s.sh.free[..n]
    ensures OnOneList(naios, t.sh, x) && OnItsRound(t, x)
  {
    CountParts(s.sh.free, n, x);
    CountPlus(s.sh.used, s.sh.free[..n], x);
  }

  lemma KernelKeepsInv(naios: nat, s: State, t: State)
    requires Inv(naios, s) && KernelStep(s, t)
    ensures Inv(naios, t)
  {
    var i :| 0 <= i < |s.inKernel|
      && t == s.(inKernel := s.inKernel[..i] + s.inKernel[i + 1..], finished := s.finished + [s.inKernel[i]]);
    forall x: Iocb ensures OnItsRound(t, x) {
      assert OnItsRound(s, x);
      TakenOut(s.inKernel, i, x);
      CountPlus(s.finished, [s.inKernel[i]], x);
    }
  }

  lemma TakenOut(k: seq<Iocb>, i: nat, x: Iocb)
    requires i < |k|
    ensures Count(k, x) == Count(k[..i] + k[i + 1..], x) + Count([k[i]], x)
  {
    assert k == k[..i] + [k[i]] + k[i + 1..];
  }

  lemma RecKeepsCounts(s: State, t: State)
    requires Counts(s) && RecStep(s, t)
    ensures Counts(t)
  {
  }

  /** What was fetched from the kernel is in use. */
  lemma EventsAreUsed(naios: nat, s: State)
    requires Lists(naios, s)
    ensures multiset(OnTheWayBack(s)) <= multiset(s.sh.used)
  {
    forall x ensures multiset(OnTheWayBack(s))[x] <= multiset(s.sh.used)[x] {
      assert OnItsRound(s, x);
    }
  }

  lemma RecKeepsLists(naios: nat, s: State, t: State)
    requires Lists(naios, s) && RecStep(s, t)
    ensures Lists(naios, t)
  {
    EventsAreUsed(naios, s);
    forall x: Iocb ensures OnOneList(naios, t.sh, x) && OnItsRound(t, x) {
      assert OnOneList(naios, s.sh, x) && OnItsRound(s, x);
      match s.rec {
        case GetEvents(n) =>
          CountPlus(t.rec.events, t.finished, x);
        case Got(n, events) =>
          RemovedAllCounts(s.sh.used, events, x);
          CountPlus(s.sh.free, events, x);
        case _ =>
      }
    }
  }

  lemma StepKeepsInv(naios: nat, s: State, t: State)
    requires Inv(naios, s) && Step(s, t)
    ensures Inv(naios, t)
  {
    if SubStep(s, t) {
      SubKeepsLists(naios, s, t);
      SubKeepsCounts(s, t);
    } else if RecStep(s, t) {
      RecKeepsLists(naios, s, t);
      RecKeepsCounts(s, t);
    } else {
      KernelKeepsInv(naios, s, t);
    }
  }

  lemma {:induction false} RunKeepsInv(naios: nat, states: seq<State>, k: nat)
    requires Run(naios, states) && k < |states|
    ensures Inv(naios, states[k])
  {
    if k == 0 {
      Initially(naios);
    } else {
      RunKeepsInv(naios, states, k - 1);
      assert Step(states[k - 1], states[k]);
      StepKeepsInv(naios, states[k - 1], states[k]);
    }
  }

  // ---------- what follows in every state of every run ----------

  /** The assertions of the program, each at the point where it is made. */
  ghost predicate AssertsHold(naios: nat, s: State) {
    // process_bunch, iocbs_map
    && (s.sub.GotFree? ==> 0 < s.sub.ntodo <= naios && s.sub.ntodo <= |s.sh.free| && s.sh.naiosFree - s.sub.ntodo >= 0)
    && (s.sub.Sent? ==> s.sh.naiosOut + s.sub.ndone <= naios && s.sub.ndone <= s.sub.todo)
    // reap_wait_aios
    && (s.rec.Seen? ==> (s.sh.sendDone && s.sh.naiosOut == 0) || s.rec.n > 0)
    // reclaim_ios: there is something to wait for, and what came is no more than was asked for
    && (s.rec.GetEvents? ==> s.rec.n > 0 && |s.inKernel| + |s.finished| > 0)
    && (s.rec.Got? ==> 0 < |s.rec.events| <= s.rec.n && multiset(s.rec.events) <= multiset(s.sh.used))
    // replay_rec
    && (s.rec.Leaving? ==> s.sh.sendDone)
    // tip_release
    && (s.sh.sendDone && s.sh.reapDone ==> s.sh.used == [] && s.sh.naiosFree == naios)
  }

  /** Every block is on exactly one list, and the counters bound each other. */
  ghost predicate Accounted(naios: nat, s: State) {
    && (forall x: Iocb :: Count(s.sh.free, x) + Count(s.sh.used, x) == if x < naios then 1 else 0)
    && s.sh.naiosFree == |s.sh.free|
    && 0 <= s.sh.naiosOut <= Accepted(s) <= |s.sh.used|
  }

  lemma Sizes(naios: nat, s: State)
    requires Lists(naios, s)
    ensures |s.sh.used| == |OnTheWay(s)| + Accepted(s)
    ensures |s.sh.free| + |s.sh.used| == naios
  {
    var round := multiset(OnTheWay(s)) + multiset(s.inKernel) + multiset(s.finished) + multiset(OnTheWayBack(s));
    forall x ensures multiset(s.sh.used)[x] == round[x] {
      assert OnItsRound(s, x);
    }
    assert multiset(s.sh.used) == round;
    forall x ensures (multiset(s.sh.free) + multiset(s.sh.used))[x] == multiset(Blocks(naios))[x] {
      assert OnOneList(naios, s.sh, x);
      BlocksOnce(naios, x);
    }
    assert multiset(s.sh.free) + multiset(s.sh.used) == multiset(Blocks(naios));
  }

  /** The main result: in every interleaving the accounts are right and no assertion fails. */
  lemma Safety(naios: nat, states: seq<State>, k: nat)
    requires Run(naios, states) && k < |states|
    ensures Accounted(naios, states[k]) && AssertsHold(naios, states[k])
  {
    var s := states[k];
    RunKeepsInv(naios, states, k);
    Sizes(naios, s);
    EventsAreUsed(naios, s);
    forall x: Iocb ensures Count(s.sh.free, x) + Count(s.sh.used, x) == if x < naios then 1 else 0 {
      assert OnOneList(naios, s.sh, x);
    }
  }

  // ---------- no wake-up is lost ----------

  /** A wait that ends without the signal that clears its flag. */
  ghost predicate Spurious(s: State, t: State) {
    || (s.sub.FreeWait? && s.sh.sendWait && t.sub != s.sub)
    || (s.rec.OutWait? && s.sh.reapWait && t.rec != s.rec)
  }

  ghost predicate Prompted(s: State, t: State) {
    Step(s, t) && !Spurious(s, t)
  }

  /** Some step is possible without a wait ending by itself. */
  ghost predicate CanMove(s: State) {
    exists t :: Prompted(s, t)
  }

  /** Whoever waits has been signalled as soon as there is something for it. */
  lemma NoWakeUpIsLost(naios: nat, states: seq<State>, k: nat)
    requires Run(naios, states) && k < |states|
    ensures var s := states[k];
      && (s.sub.FreeWait? ==> (s.sh.sendWait <==> s.sh.naiosFree == 0))
      && (s.rec.OutWait? ==> (s.sh.reapWait <==> s.sh.naiosOut == 0))
  {
    RunKeepsInv(naios, states, k);
  }

  lemma RecCanMove(s: State)
    requires Counts(s) && !s.rec.RecDone? && (s.rec.OutWait? ==> !s.sh.reapWait)
    ensures CanMove(s)
  {
    var t;
    match s.rec {
      case Top => t := s.(rec := if s.sh.sendDone then TopOut else AskOut);
      case TopOut => t := s.(rec := if s.sh.naiosOut == 0 then Seen(0) else AskOut);
      case AskOut =>
        t := if s.sh.naiosOut == 0 then s.(sh := s.sh.(reapWait := true), rec := OutWait)
             else s.(rec := Seen(s.sh.naiosOut));
      case OutWait => t := s.(rec := AskOut);
      case Seen(n) => t := s.(rec := if (s.sh.sendDone && s.sh.naiosOut == 0) || n == 0 then Leaving else GetEvents(n));
      case GetEvents(n) =>
        if s.finished == [] {
          t := s.(inKernel := s.inKernel[..0] + s.inKernel[1..], finished := s.finished + [s.inKernel[0]]);
          assert KernelStep(s, t);
        } else {
          t := s.(rec := Got(n, s.finished[..1]), finished := s.finished[1..]);
          assert s.finished == t.rec.events + t.finished;
        }
      case Got(n, events) =>
        var sh := Reclaimed(s.sh, events);
        var more := Min(n, sh.naiosOut);
        t := s.(sh := sh, rec := if more > 0 then GetEvents(more) else Top);
      case Leaving => t := s.(sh := s.sh.(reapDone := true), rec := RecDone);
    }
    assert Prompted(s, t);
  }

  lemma SubCanMove(s: State)
    requires Counts(s) && !s.sub.SubDone? && (s.sub.FreeWait? ==> !s.sh.sendWait)
    ensures CanMove(s)
  {
    var t;
    match s.sub {
      case NextBunch => t := s.(sub := SubDone, sh := s.sh.(sendDone := true));
      case AskFree(todo) =>
        t := if s.sh.naiosFree == 0 then s.(sh := s.sh.(sendWait := true), sub := FreeWait(todo))
             else s.(sub := GotFree(todo, Min(s.sh.naiosFree, todo)));
      case FreeWait(todo) => t := s.(sub := AskFree(todo));
      case GotFree(todo, ntodo) => t := s.(sh := Mapped(s.sh, ntodo), sub := Ready(todo, s.sh.free[..ntodo]));
      case Ready(todo, list) => t := s.(inKernel := s.inKernel + list, sub := Sent(todo, |list|));
      case Sent(todo, ndone) =>
        t := s.(sh := Counted(s.sh, ndone), sub := if todo == ndone then NextBunch else AskFree(todo - ndone));
    }
    assert Prompted(s, t);
  }

  /** The submitter has ended, and the reclaimer has too or sleeps. */
  ghost predicate AtRest(s: State) {
    s.sub.SubDone? && (s.rec.RecDone? || (s.rec.OutWait? && s.sh.reapWait))
  }

  /**
    In every state of every run someone can go on, unless the submitter has ended and the
    reclaimer has too or sleeps.
   */
  lemma CanMoveIff(naios: nat, states: seq<State>, k: nat)
    requires naios >= 1 && Run(naios, states) && k < |states|
    ensures CanMove(states[k]) <==> !AtRest(states[k])
  {
    RunKeepsInv(naios, states, k);
    StateCanMoveIff(naios, states[k]);
  }

  lemma StateCanMoveIff(naios: nat, s: State)
    requires naios >= 1 && Inv(naios, s)
    ensures CanMove(s) <==> !AtRest(s)
  {
    Sizes(naios, s);
    if AtRest(s) {
      assert s.inKernel == [];
    } else if !s.sub.SubDone? && (s.sub.FreeWait? ==> !s.sh.sendWait) {
      SubCanMove(s);
    } else {
      RecCanMove(s);
    }
  }

  // ---------- how long it can go on ----------

  ghost predicate StartsBunch(s: State, t: State) {
    s.sub.NextBunch? && t.sub.AskFree?
  }

  function SubRank(s: State): int {
    match s.sub
    case NextBunch => 1
    case AskFree(todo) => 20 * todo + if s.sh.naiosFree == 0 then 5 else 3
    case FreeWait(todo) => 20 * todo + 4
    case GotFree(todo, ntodo) => 20 * todo + 2
    case Ready(todo, list) => 20 * todo + 1
    case Sent(todo, ndone) => 20 * todo - ndone
    case SubDone => 0
  }

  function RecRank(s: State): int {
    match s.rec
    case Top => 9
    case TopOut => 8
    case AskOut => if s.sh.naiosOut == 0 then 7 else 5
    case OutWait => 6
    case Seen(n) => 4
    case GetEvents(n) => 3
    case Got(n, events) => 2
    case Leaving => 1
    case RecDone => 0
  }

  /** How many steps there can be before a bunch is begun or a wait ends by itself. */
  function Rank(s: State): int {
    10 * s.sh.naiosOut + |s.inKernel| + SubRank(s) + RecRank(s)
  }

  lemma RankNotNegative(s: State)
    requires Counts(s)
    ensures Rank(s) >= 0
  {
  }

  lemma SubDescends(s: State, t: State)
    requires Counts(s) && SubStep(s, t) && !Spurious(s, t) && !StartsBunch(s, t)
    ensures Rank(t) < Rank(s)
  {
  }

  lemma RecDescends(s: State, t: State)
    requires Counts(s) && RecStep(s, t) && !Spurious(s, t)
    ensures Rank(t) < Rank(s)
  {
  }

  lemma KernelKeepsCounts(s: State, t: State)
    requires Counts(s) && KernelStep(s, t)
    ensures Counts(t) && t.sh == s.sh && t.sub == s.sub && t.rec == s.rec && |t.inKernel| + 1 == |s.inKernel|
  {
  }

  lemma StepDescends(s: State, t: State)
    requires Counts(s) && Prompted(s, t) && !StartsBunch(s, t)
    ensures Counts(t) && Rank(t) < Rank(s)
  {
    if SubStep(s, t) {
      SubKeepsCounts(s, t);
      SubDescends(s, t);
    } else if RecStep(s, t) {
      RecKeepsCounts(s, t);
      RecDescends(s, t);
    } else {
      KernelKeepsCounts(s, t);
    }
  }

  /** What may follow `s`, beginning with `s` itself. */
  ghost predicate Continues(s: State, more: seq<State>) {
    && more != [] && more[0] == s
    && forall i :: 0 <= i < |more| - 1 ==> Step(more[i], more[i + 1])
  }

  /** No bunch is begun, and no wait ends by itself. */
  ghost predicate Quiet(more: seq<State>) {
    forall i :: 0 <= i < |more| - 1 ==> Prompted(more[i], more[i + 1]) && !StartsBunch(more[i], more[i + 1])
  }

  lemma {:induction false} QuietEnds(s: State, more: seq<State>, i: nat)
    requires Counts(s) && Continues(s, more) && Quiet(more) && i < |more|
    ensures Counts(more[i]) && i + Rank(more[i]) <= Rank(s)
  {
    if i > 0 {
      QuietEnds(s, more, i - 1);
      assert Prompted(more[i - 1], more[i - 1 + 1]);
      StepDescends(more[i - 1], more[i]);
    }
  }

  lemma {:induction false} ContinuesKeepsInv(naios: nat, s: State, more: seq<State>, i: nat)
    requires Inv(naios, s) && Continues(s, more) && i < |more|
    ensures Inv(naios, more[i])
  {
    if i > 0 {
      ContinuesKeepsInv(naios, s, more, i - 1);
      assert Step(more[i - 1], more[i - 1 + 1]);
      StepKeepsInv(naios, more[i - 1], more[i]);
    }
  }

  /**
    Every bunch that is begun is submitted: from any state there are no more steps than its
    rank before the next is begun, and as long as the submitter is at one, someone can go on.
   */
  lemma EveryBunchIsSubmitted(naios: nat, states: seq<State>, k: nat, more: seq<State>)
    requires naios >= 1 && Run(naios, states) && k < |states|
    requires Continues(states[k], more) && Quiet(more)
    ensures |more| - 1 <= Rank(states[k])
    ensures var last := more[|more| - 1]; last.sub.NextBunch? || last.sub.SubDone? || CanMove(last)
  {
    RunKeepsInv(naios, states, k);
    QuietEnds(states[k], more, |more| - 1);
    RankNotNegative(more[|more| - 1]);
    ContinuesKeepsInv(naios, states[k], more, |more| - 1);
    StateCanMoveIff(naios, more[|more| - 1]);
  }

  // ---------- the one thing that can go wrong: the last signal is never sent ----------

  /** The submitter is done, nothing is out, and the reclaimer still waits to hear of something. */
  ghost predicate Stranded(s: State) {
    s.sub.SubDone? && s.sh.sendDone && s.sh.naiosOut == 0 && (s.rec.AskOut? || s.rec.OutWait?)
  }

  /** The submitter has ended, and not so that the reclaimer is stranded. */
  ghost predicate Ending(s: State) {
    Counts(s) && s.sub.SubDone? && !Stranded(s)
  }

  lemma StepKeepsEnding(s: State, t: State)
    requires Ending(s) && Step(s, t)
    ensures Ending(t) && Prompted(s, t) && !StartsBunch(s, t) && Rank(t) < Rank(s)
  {
    StepDescends(s, t);
  }

  /** From an ending state there are no more steps than its rank, and the last leaves the reclaimer ended. */
  lemma {:induction false} EveryWayEnds(s: State, more: seq<State>, i: nat)
    requires Ending(s) && Continues(s, more) && i < |more|
    ensures Ending(more[i]) && i + Rank(more[i]) <= Rank(s)
    ensures more[i].rec.RecDone? || CanMove(more[i])
  {
    if i > 0 {
      EveryWayEnds(s, more, i - 1);
      assert Step(more[i - 1], more[i - 1 + 1]);
      StepKeepsEnding(more[i - 1], more[i]);
    }
    if !more[i].rec.RecDone? {
      RecCanMove(more[i]);
    }
  }

  lemma {:induction false} SomeWayEnds(s: State) returns (more: seq<State>)
    requires Ending(s)
    ensures Continues(s, more) && more[|more| - 1].rec.RecDone?
    decreases if Rank(s) > 0 then Rank(s) else 0
  {
    more := [s];
    if !s.rec.RecDone? {
      RecCanMove(s);
      var t :| Prompted(s, t);
      StepKeepsEnding(s, t);
      RankNotNegative(t);
      var rest := SomeWayEnds(t);
      more := [s] + rest;
      forall i | 0 <= i < |more| - 1 ensures Step(more[i], more[i + 1]) {
        assert i > 0 ==> Step(rest[i - 1], rest[i - 1 + 1]);
      }
    }
  }

  /** A stranded reclaimer stays so, whatever wakes it: replay_rec does not return. */
  lemma {:induction false} StrandedForGood(s: State, more: seq<State>, i: nat)
    requires Stranded(s) && Continues(s, more) && i < |more|
    ensures Stranded(more[i])
  {
    if i > 0 {
      StrandedForGood(s, more, i - 1);
      assert Step(more[i - 1], more[i - 1 + 1]);
    }
  }

  /**
    Once the submitter has ended, the reclaimer can end if and only if it is not stranded;
    and if it is not, every way on ends it, in a bounded number of steps.
   */
  lemma ReclaimerEndsIff(naios: nat, states: seq<State>, k: nat)
    requires Run(naios, states) && k < |states| && states[k].sub.SubDone?
    ensures (exists more: seq<State> :: Continues(states[k], more) && more[|more| - 1].rec.RecDone?)
      <==> !Stranded(states[k])
    ensures !Stranded(states[k]) ==> forall more: seq<State> :: Continues(states[k], more) ==>
      |more| - 1 <= Rank(states[k]) && (more[|more| - 1].rec.RecDone? || CanMove(more[|more| - 1]))
  {
    var s := states[k];
    RunKeepsInv(naios, states, k);
    if Stranded(s) {
      forall more: seq<State> | Continues(s, more) ensures !more[|more| - 1].rec.RecDone? {
        StrandedForGood(s, more, |more| - 1);
      }
    } else {
      var more := SomeWayEnds(s);
      forall more: seq<State> | Continues(s, more)
        ensures |more| - 1 <= Rank(s) && (more[|more| - 1].rec.RecDone? || CanMove(more[|more| - 1]))
      {
        EveryWayEnds(s, more, |more| - 1);
        RankNotNegative(more[|more| - 1]);
      }
    }
  }

  // ---------- any bunches can end like that ----------

  /** The sizes of the bunches that were begun. */
  ghost function Bunches(states: seq<State>): seq<nat> {
    if |states| < 2 then []
    else
      var n := |states| - 1;
      Bunches(states[..n]) + if StartsBunch(states[n - 1], states[n]) then [states[n].sub.todo] else []
  }

  /** A run in which no wait ends by itself, with its last state and its bunches. */
  ghost predicate Reaches(naios: nat, states: seq<State>, t: State, sizes: seq<nat>) {
    && Run(naios, states) && states[|states| - 1] == t && Bunches(states) == sizes
    && forall i :: 0 <= i < |states| - 1 ==> Prompted(states[i], states[i + 1])
  }

  lemma Prolong(naios: nat, run: seq<State>, s: State, sizes: seq<nat>, t: State) returns (longer: seq<State>)
    requires Reaches(naios, run, s, sizes) && Prompted(s, t)
    ensures Reaches(naios, longer, t, sizes + if StartsBunch(s, t) then [t.sub.todo] else [])
  {
    longer := run + [t];
    assert longer[..|run|] == run;
    forall i | 0 <= i < |longer| - 1 ensures Step(longer[i], longer[i + 1]) && Prompted(longer[i], longer[i + 1]) {
      assert i < |run| - 1 ==> Prompted(run[i], run[i + 1]);
    }
  }

  /** One step that begins no bunch. */
  lemma Go(naios: nat, run: seq<State>, s: State, sizes: seq<nat>, t: State) returns (longer: seq<State>)
    requires Reaches(naios, run, s, sizes) && Prompted(s, t) && !StartsBunch(s, t)
    ensures Reaches(naios, longer, t, sizes)
  {
    longer := Prolong(naios, run, s, sizes, t);
    assert sizes + [] == sizes;
  }

  /** All blocks are free, and the reclaimer sleeps. */
  function Asleep(free: seq<Iocb>, sub: Sub): State {
    State(Shared(free, [], |free|, 0, false, true, false, false), [], [], sub, OutWait)
  }

  /** The submitter has counted a batch as out, which has woken the reclaimer. */
  function Submitted(free: seq<Iocb>, list: seq<Iocb>, sub: Sub): State {
    State(Shared(free, list, |free|, |list|, false, false, false, false), list, [], sub, OutWait)
  }

  function AfterBatch(todo: nat, n: nat): Sub {
    if todo <= n then NextBunch else AskFree(todo - n)
  }

  /** The submitter maps as many blocks as it can for the `todo` packets left. */
  lemma MapSome(naios: nat, run: seq<State>, sizes: seq<nat>, free: seq<Iocb>, todo: nat, n: nat)
    returns (longer: seq<State>)
    requires Reaches(naios, run, Asleep(free, AskFree(todo)), sizes) && todo > 0 && free != [] && n == Min(|free|, todo)
    ensures Reaches(naios, longer, Mapping(free, todo, n), sizes)
  {
    var s, t := Asleep(free, AskFree(todo)), Asleep(free, GotFree(todo, n));
    longer := Go(naios, run, s, sizes, t);
    assert [] + free[..n] == free[..n];
    longer := Go(naios, longer, t, sizes, Mapping(free, todo, n));
  }

  function Mapping(free: seq<Iocb>, todo: nat, n: nat): State
    requires n <= |free|
  {
    var sh := Shared(free[n..], free[..n], |free| - n, 0, false, true, false, false);
    State(sh, [], [], Ready(todo, free[..n]), OutWait)
  }

  lemma Submit(naios: nat, run: seq<State>, sizes: seq<nat>, free: seq<Iocb>, todo: nat, n: nat)
    returns (longer: seq<State>)
    requires 0 < n <= |free| && n <= todo && Reaches(naios, run, Mapping(free, todo, n), sizes)
    ensures Reaches(naios, longer, Submitted(free[n..], free[..n], AfterBatch(todo, n)), sizes)
  {
    var s := Mapping(free, todo, n);
    var t := s.(inKernel := free[..n], sub := Sent(todo, n));
    assert [] + free[..n] == free[..n];
    assert SubStep(s, t);
    longer := Go(naios, run, s, sizes, t);
    longer := CountSent(naios, longer, sizes, t, todo, n);
    assert Counted(t.sh, n) == Submitted(free[n..], free[..n], AfterBatch(todo, n)).sh;
  }

  lemma CountSent(naios: nat, run: seq<State>, sizes: seq<nat>, s: State, todo: nat, n: nat)
    returns (longer: seq<State>)
    requires s.sub == Sent(todo, n) && n <= todo && Reaches(naios, run, s, sizes)
    ensures Reaches(naios, longer, s.(sh := Counted(s.sh, n), sub := AfterBatch(todo, n)), sizes)
  {
    var t := s.(sh := Counted(s.sh, n), sub := AfterBatch(todo, n));
    assert SubStep(s, t);
    longer := Go(naios, run, s, sizes, t);
  }

  lemma {:induction false} Complete(naios: nat, run: seq<State>, sizes: seq<nat>, s: State, list: seq<Iocb>, i: nat)
    returns (longer: seq<State>)
    requires i <= |list|
    requires Reaches(naios, run, s.(inKernel := list[i..], finished := list[..i]), sizes)
    ensures Reaches(naios, longer, s.(inKernel := [], finished := list), sizes)
    decreases |list| - i
  {
    if i == |list| {
      assert list[i..] == [] && list[..i] == list;
      longer := run;
    } else {
      var t := s.(inKernel := list[i..], finished := list[..i]);
      var u := s.(inKernel := list[i + 1..], finished := list[..i + 1]);
      assert t.inKernel[..0] + t.inKernel[1..] == u.inKernel && t.finished + [t.inKernel[0]] == u.finished;
      assert KernelStep(t, u);
      longer := Go(naios, run, t, sizes, u);
      longer := Complete(naios, longer, sizes, s, list, i + 1);
    }
  }

  lemma {:induction false} RemovedWhole(list: seq<Iocb>)
    ensures RemovedAll(list, list) == []
  {
    if list != [] {
      RemovedWhole(list[1..]);
    }
  }

  /** The reclaimer is awake and learns how many are out. */
  lemma WakeUp(naios: nat, run: seq<State>, sizes: seq<nat>, s: State, n: nat) returns (longer: seq<State>)
    requires s.rec == OutWait && !s.sh.reapWait && s.sh.naiosOut == n > 0 && !s.sh.sendDone
    requires Reaches(naios, run, s, sizes)
    ensures Reaches(naios, longer, s.(rec := GetEvents(n)), sizes)
  {
    longer := Go(naios, run, s, sizes, s.(rec := AskOut));
    longer := Go(naios, longer, s.(rec := AskOut), sizes, s.(rec := Seen(n)));
    longer := Go(naios, longer, s.(rec := Seen(n)), sizes, s.(rec := GetEvents(n)));
  }

  lemma Fetch(naios: nat, run: seq<State>, sizes: seq<nat>, s: State, list: seq<Iocb>) returns (longer: seq<State>)
    requires list != [] && s.finished == list && Reaches(naios, run, s.(rec := GetEvents(|list|)), sizes)
    ensures Reaches(naios, longer, s.(rec := Got(|list|, list), finished := []), sizes)
  {
    var t, u := s.(rec := GetEvents(|list|)), s.(rec := Got(|list|, list), finished := []);
    assert t.finished == u.rec.events + u.finished;
    assert RecStep(t, u);
    longer := Go(naios, run, t, sizes, u);
  }

  lemma FallAsleep(naios: nat, run: seq<State>, sizes: seq<nat>, s: State) returns (longer: seq<State>)
    requires s.rec == Top && s.sh.naiosOut == 0 && !s.sh.sendDone && Reaches(naios, run, s, sizes)
    ensures Reaches(naios, longer, s.(sh := s.sh.(reapWait := true), rec := OutWait), sizes)
  {
    longer := Go(naios, run, s, sizes, s.(rec := AskOut));
    longer := Go(naios, longer, s.(rec := AskOut), sizes, s.(sh := s.sh.(reapWait := true), rec := OutWait));
  }

  lemma GiveBack(naios: nat, run: seq<State>, sizes: seq<nat>, s: State, list: seq<Iocb>) returns (longer: seq<State>)
    requires s.rec == Got(|list|, list) && s.sh.used == list && s.sh.naiosOut == |list|
    requires Reaches(naios, run, s, sizes)
    ensures Reaches(naios, longer, s.(rec := Top, sh := Reclaimed(s.sh, list).(used := [])), sizes)
  {
    RemovedWhole(list);
    var t := s.(rec := Top, sh := Reclaimed(s.sh, list));
    assert RecStep(s, t);
    longer := Go(naios, run, s, sizes, t);
  }

  /** The reclaimer fetches all, gives the blocks back, and goes to sleep. */
  lemma Reap(naios: nat, run: seq<State>, sizes: seq<nat>, free: seq<Iocb>, list: seq<Iocb>, sub: Sub)
    returns (longer: seq<State>)
    requires list != [] && Reaches(naios, run, Submitted(free, list, sub).(inKernel := [], finished := list), sizes)
    ensures Reaches(naios, longer, Asleep(free + list, sub), sizes)
  {
    var s := Submitted(free, list, sub).(inKernel := [], finished := list);
    longer := WakeUp(naios, run, sizes, s, |list|);
    longer := Fetch(naios, longer, sizes, s, list);
    s := s.(rec := Got(|list|, list), finished := []);
    longer := GiveBack(naios, longer, sizes, s, list);
    s := s.(rec := Top, sh := Reclaimed(s.sh, list).(used := []));
    longer := FallAsleep(naios, longer, sizes, s);
  }

  /** The rest of a bunch, batch by batch. */
  lemma {:induction false} RunBunch(naios: nat, run: seq<State>, sizes: seq<nat>, free: seq<Iocb>, todo: nat)
    returns (longer: seq<State>, last: seq<Iocb>)
    requires Reaches(naios, run, Asleep(free, AskFree(todo)), sizes) && todo > 0 && free != []
    ensures Reaches(naios, longer, Asleep(last, NextBunch), sizes) && last != []
    decreases todo
  {
    var n := Min(|free|, todo);
    var list, sub := free[..n], AfterBatch(todo, n);
    longer := MapSome(naios, run, sizes, free, todo, n);
    longer := Submit(naios, longer, sizes, free, todo, n);
    var s := Submitted(free[n..], list, sub);
    assert s == s.(inKernel := list[0..], finished := list[..0]);
    longer := Complete(naios, longer, sizes, s, list, 0);
    longer := Reap(naios, longer, sizes, free[n..], list, sub);
    last := free[n..] + list;
    if n < todo {
      longer, last := RunBunch(naios, longer, sizes, last, todo - n);
    }
  }

  lemma {:induction false} RunBunches(naios: nat, run: seq<State>, done: seq<nat>, free: seq<Iocb>,
                                      sizes: seq<BunchSize>)
    returns (longer: seq<State>, last: seq<Iocb>)
    requires Reaches(naios, run, Asleep(free, NextBunch), done) && free != []
    ensures Reaches(naios, longer, Asleep(last, NextBunch), done + sizes)
    decreases sizes
  {
    longer, last := run, free;
    if sizes == [] {
      assert done + sizes == done;
    } else {
      var s, t := Asleep(free, NextBunch), Asleep(free, AskFree(sizes[0]));
      longer := Prolong(naios, run, s, done, t);
      longer, last := RunBunch(naios, longer, done + [sizes[0]], free, sizes[0]);
      assert done + [sizes[0]] + sizes[1..] == done + sizes;
      longer, last := RunBunches(naios, longer, done + [sizes[0]], last, sizes[1..]);
    }
  }

  /**
    Whatever bunches a file has, it can come to that: they are all submitted and reclaimed,
    the reclaimer waits for more, and only then does the submitter end.
   */
  lemma StrandingHappens(naios: nat, sizes: seq<BunchSize>) returns (run: seq<State>)
    requires naios >= 1
    ensures Run(naios, run) && Bunches(run) == sizes && Stranded(run[|run| - 1])
    ensures forall i :: 0 <= i < |run| - 1 ==> Prompted(run[i], run[i + 1])
  {
    var s := Initial(naios);
    run := [s];
    run := FallAsleep(naios, run, [], s);
    var last;
    run, last := RunBunches(naios, run, [], Blocks(naios), sizes);
    assert [] + sizes == sizes;
    var t := Asleep(last, NextBunch);
    run := Go(naios, run, t, sizes, t.(sub := SubDone, sh := t.sh.(sendDone := true)));
  }
}

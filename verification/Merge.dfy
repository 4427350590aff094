/**
  The merge itself: the streams, the list they hang in, and the loop that takes the head's
  first trace until none is left or the window is over.
 */
module Merge {
  import opened Common
  import opened MergeTheory

  /** `struct ms_stream`, with the part of its file that is still to be read. */
  class MsStream {
    const id: nat
    var next: MsStream?
    var queue: seq<Rec>
    var file: seq<Rec>

    constructor (id: nat, file: seq<Rec>)
      ensures this.id == id && next == null && queue == [] && this.file == file
    {
      this.id, next, queue, this.file := id, null, [], file;
    }

    /** `ms_prime` */
    method Prime(rbBatch: nat) returns (ndone: nat)
      modifies `queue, `file
      ensures var r := Batch(old(file), rbBatch);
        queue == old(queue) + r.0 && file == r.1 && ndone == |r.0|
    {
      ghost var r := Batch(file, rbBatch);
      ghost var got: seq<Rec> := [];
      ndone := 0;
      var i := 0;
      while i < rbBatch && file != []
        invariant i <= rbBatch && ndone == |got| && queue == old(queue) + got
        invariant r.0 == got + Batch(file, rbBatch - i).0 && r.1 == Batch(file, rbBatch - i).1
        decreases |file|
      {
        var rec := file[0];
        file := file[1..];
        match rec.kind
        case Foreign =>
          i := i + 1;
        case Notify =>
        case Trace =>
          queue := queue + [rec];
          got := got + [rec];
          ndone := ndone + 1;
          i := i + 1;
      }
    }
  }

  /** What is left of a stream's queue and file once its first trace is gone. */
  function Dequeued(queue: seq<Rec>, file: seq<Rec>, rbBatch: nat): (seq<Rec>, seq<Rec>)
    requires queue != []
  {
    if |queue| > 1 then (queue[1..], file) else Batch(file, rbBatch)
  }

  /** The traces of a file that have not been handled but will be: a stream whose queue is empty is done. */
  function Pending(queue: seq<Rec>, file: seq<Rec>, rbBatch: nat): seq<Rec> {
    if queue == [] then [] else queue + ReadAll(file, rbBatch)
  }

  lemma DequeuedKeeps(queue: seq<Rec>, file: seq<Rec>, rbBatch: nat)
    requires queue != []
    ensures var r := Dequeued(queue, file, rbBatch);
      [queue[0]] + Pending(r.0, r.1, rbBatch) == Pending(queue, file, rbBatch)
  {
    var r := Dequeued(queue, file, rbBatch);
    if |queue| > 1 {
      assert [queue[0]] + (queue[1..] + ReadAll(file, rbBatch)) == queue + ReadAll(file, rbBatch);
    } else {
      assert queue == [queue[0]];
    }
  }

  function NextIn(order: seq<MsStream>, i: nat): MsStream? {
    if i + 1 < |order| then order[i + 1] else null
  }

  /** `p` leads through `order` and nowhere else. */
  ghost predicate Linked(p: MsStream?, order: seq<MsStream>)
    reads order
  {
    && (if order == [] then p == null else p == order[0])
    && (forall i {:trigger NextIn(order, i)} :: 0 <= i < |order| ==> order[i].next == NextIn(order, i))
    && (forall i, j :: 0 <= i < j < |order| ==> order[i] != order[j])
  }

  /** No queue is empty, and the first times do not go down. */
  ghost predicate Sorted(order: seq<MsStream>)
    reads order
  {
    && (forall i :: 0 <= i < |order| ==> order[i].queue != [])
    && (forall i, j :: 0 <= i <= j < |order| ==> order[i].queue[0].time <= order[j].queue[0].time)
  }

  /**
    Where a stream with first time `t` goes: before the first that is not earlier, but not
    before a head of the same time.
   */
  ghost predicate Place(order: seq<MsStream>, k: nat, t: nat)
    reads order
    requires forall i :: 0 <= i < |order| ==> order[i].queue != []
  {
    && k <= |order|
    && (k > 0 ==> order[0].queue[0].time <= t)
    && (forall i :: 0 < i < k ==> order[i].queue[0].time < t)
    && (forall i :: k <= i < |order| ==> t <= order[i].queue[0].time)
    && (k == 0 && order != [] ==> t < order[0].queue[0].time)
  }

  /** How many streams begin earlier. */
  ghost function Earlier(order: seq<MsStream>, t: nat): nat
    reads order
    requires forall i :: 0 <= i < |order| ==> order[i].queue != []
  {
    if order == [] then 0 else (if order[0].queue[0].time < t then 1 else 0) + Earlier(order[1..], t)
  }

  lemma {:induction false} EarlierFirst(order: seq<MsStream>, t: nat)
    requires Sorted(order)
    ensures var c := Earlier(order, t);
      c <= |order| && forall i :: 0 <= i < |order| ==> (order[i].queue[0].time < t <==> i < c)
  {
    if order != [] {
      RestSorted(order);
      EarlierFirst(order[1..], t);
      assert forall i :: 1 <= i < |order| ==> order[i] == order[1..][i - 1];
    }
  }

  /**
    There is one place for a stream: behind those that begin earlier and before all that begin
    at the same time, except that the head stays the head.
   */
  lemma PlaceIff(order: seq<MsStream>, k: nat, t: nat)
    requires Sorted(order)
    ensures Place(order, k, t) <==>
      k == if order != [] && order[0].queue[0].time == t then 1 else Earlier(order, t)
  {
    EarlierFirst(order, t);
    var c := Earlier(order, t);
    assert c < |order| ==> t <= order[c].queue[0].time;
    assert k < |order| && k < c ==> order[k].queue[0].time < t;
    assert |order| > 1 ==> order[0].queue[0].time <= order[1].queue[0].time;
  }

  function Insert(order: seq<MsStream>, k: nat, s: MsStream): seq<MsStream>
    requires k <= |order|
  {
    order[..k] + [s] + order[k..]
  }

  lemma InsertSorted(order: seq<MsStream>, k: nat, s: MsStream)
    requires Sorted(order) && s.queue != [] && Place(order, k, s.queue[0].time)
    ensures Sorted(Insert(order, k, s))
  {
  }

  /** What came out of a file and what is pending are all that is read of it; it is listed as long as any is pending. */
  ghost predicate Accounted(out: seq<Out>, id: nat, queue: seq<Rec>, file: seq<Rec>, full: seq<Rec>,
                            listed: bool, rbBatch: nat) {
    From(out, id) + Pending(queue, file, rbBatch) == full && (listed <==> queue != [])
  }

  class Merger {
    const rbBatch: nat
    const stopwatchEnd: U64
    var head: MsStream?
    var genesis: nat
    /** All that has been handled. */
    var out: seq<Out>
    ghost var order: seq<MsStream>
    /** All streams there ever were, with the traces of their files. */
    ghost var all: seq<MsStream>
    ghost var files: seq<seq<Rec>>

    constructor (rbBatch: nat, stopwatchEnd: U64)
      ensures Valid() && order == [] && all == [] && files == [] && out == [] && genesis == 0
      ensures this.rbBatch == rbBatch && this.stopwatchEnd == stopwatchEnd
    {
      this.rbBatch, this.stopwatchEnd := rbBatch, stopwatchEnd;
      head, genesis, out, order, all, files := null, 0, [], [], [], [];
    }

    ghost predicate Valid()
      reads `head, `order, order
    {
      Linked(head, order) && Sorted(order)
    }

    /** The stream becomes the head. */
    method PutFirst(msp: MsStream)
      requires Linked(head, order) && msp !in order && msp.next == null
      modifies `head, `order, msp`next
      ensures order == Insert(old(order), 0, msp) && Linked(head, order)
    {
      if head != null {
        msp.next := head;
      }
      head := msp;
      ghost var was := order;
      order := Insert(order, 0, msp);
      forall i | 0 <= i < |order| ensures order[i].next == NextIn(order, i) {
        if i > 0 {
          assert was[i - 1].next == NextIn(was, i - 1);
        }
      }
    }

    /** The stream is hung in behind `prev`. */
    method PutAfter(prev: MsStream, msp: MsStream, ghost k: nat)
      requires Linked(head, order) && msp !in order && 1 <= k <= |order| && prev == order[k - 1]
      modifies `order, msp`next, prev`next
      ensures order == Insert(old(order), k, msp) && Linked(head, order)
    {
      assert order[k - 1].next == NextIn(order, k - 1);
      msp.next := prev.next;
      prev.next := msp;
      ghost var was := order;
      order := Insert(order, k, msp);
      forall i | 0 <= i < |order| ensures order[i].next == NextIn(order, i) {
        if i > k {
          assert was[i - 1] != prev && was[i - 1].next == NextIn(was, i - 1);
        } else if i < k - 1 {
          assert was[i] != prev && was[i].next == NextIn(was, i);
        }
      }
    }

    /** The loop of `ms_sort`. */
    method FindPlace(t: nat) returns (prev: MsStream, ghost k: nat)
      requires Valid() && head != null && head.queue[0].time <= t
      ensures 1 <= k <= |order| && prev == order[k - 1] && Place(order, k, t)
    {
      prev := head;
      k := 1;
      assert order[0].next == NextIn(order, 0);
      while prev.next != null && prev.next.queue[0].time < t
        invariant 1 <= k <= |order| && prev == order[k - 1] && prev.next == NextIn(order, k - 1)
        invariant forall i :: 0 < i < k ==> order[i].queue[0].time < t
        decreases |order| - k
      {
        assert order[k].next == NextIn(order, k);
        prev := prev.next;
        k := k + 1;
      }
    }

    /** `ms_sort` */
    method MsSort(msp: MsStream) returns (ghost k: nat)
      requires Valid() && msp !in order && msp.next == null && msp.queue != []
      modifies `head, `order, msp`next, Members(order)`next
      ensures k <= |old(order)| && Place(old(order), k, msp.queue[0].time) && order == Insert(old(order), k, msp)
      ensures Valid()
    {
      ghost var was := order;
      var t := msp.queue[0].time;
      if head == null || t < head.queue[0].time {
        k := 0;
        PutFirst(msp);
      } else {
        var prev;
        prev, k := FindPlace(t);
        PutAfter(prev, msp, k);
      }
      InsertSorted(was, k, msp);
    }

    /** The head is taken off the list. */
    method Unhook()
      requires Linked(head, order) && head != null
      modifies `head, `order, head`next
      ensures order == old(order)[1..] && Linked(head, order) && old(head) !in order && old(head).next == null
    {
      assert order[0].next == NextIn(order, 0);
      ghost var was := order;
      var msp := head;
      head := msp.next;
      msp.next := null;
      order := order[1..];
      forall i | 0 <= i < |order| ensures order[i].next == NextIn(order, i) {
        assert was[i + 1] != msp && was[i + 1].next == NextIn(was, i + 1);
      }
    }

    /** `ms_resort`, when only the head may be out of place. */
    method MsResort(msp: MsStream)
      requires Linked(head, order) && order != [] && msp == order[0] && msp.queue != [] && Sorted(order[1..])
      modifies `head, `order, Members(order)`next
      ensures Valid() && Members(order) == Members(old(order))
    {
      assert msp.next == NextIn(order, 0);
      ghost var was := order;
      if msp.next != null && msp.queue[0].time > msp.next.queue[0].time {
        Unhook();
        ghost var k := MsSort(msp);
        MembersInsert(was[1..], k, msp);
        assert was == [msp] + was[1..];
      } else {
        HeadInPlace(order);
      }
    }

    /** `ms_deq`, for the head: an empty queue is filled again, or the stream is done. */
    method MsDeq(msp: MsStream)
      requires Valid() && head == msp
      modifies `head, `order, Members(order)`next, msp`queue, msp`file
      ensures var r := Dequeued(old(msp.queue), old(msp.file), rbBatch); msp.queue == r.0 && msp.file == r.1
      ensures Valid() && Members(order) == Members(old(order)) - (if msp.queue == [] then {msp} else {})
    {
      ghost var was := order;
      RestSorted(order);
      msp.queue := msp.queue[1..];
      if msp.queue == [] {
        var ndone := msp.Prime(rbBatch);
        if ndone == 0 {
          assert Sorted(order[1..]);
          Unhook();
          MembersRest(was);
          return;
        }
      }
      MsResort(msp);
    }

    /** With `log` out and `listed` in the list, what came out of each file and what is pending are its traces. */
    ghost predicate WholeBut(log: seq<Out>, listed: set<MsStream>)
      reads `all, `files, all
    {
      && |all| == |files|
      && (forall i :: 0 <= i < |all| ==> all[i].id == i)
      && (forall i :: 0 <= i < |all| ==>
           Accounted(log, i, all[i].queue, all[i].file, files[i], all[i] in listed, rbBatch))
      && forall i :: 0 <= i < |log| ==> log[i].file < |files|
    }

    ghost predicate Whole()
      reads `out, `order, `all, `files, all
    {
      Members(order) <= Members(all) && WholeBut(out, Members(order))
    }

    /** What is out is in order, in the window, and no later than what is pending. */
    ghost predicate Timely()
      reads `head, `genesis, `out, head
      requires head != null ==> head.queue != []
    {
      && InWindow(out, genesis, stopwatchEnd)
      && (head != null ==> genesis <= head.queue[0].time && NotBefore(out, head.queue[0].time))
    }

    /** Hangs in a stream that has something in its queue. */
    method MsHang(msp: MsStream, some: bool)
      requires Valid() && msp !in order && msp.next == null && (some <==> msp.queue != [])
      modifies `head, `order, msp`next, Members(order)`next
      ensures Valid() && Members(order) == Members(old(order)) + (if some then {msp} else {})
    {
      if some {
        ghost var was := order;
        ghost var k := MsSort(msp);
        MembersInsert(was, k, msp);
      }
    }

    ghost method Enroll(msp: MsStream, full: seq<Rec>)
      requires WholeBut(out, Members(order)) && Members(order) <= Members(all) + {msp} && msp.id == |all|
      requires Accounted(out, msp.id, msp.queue, msp.file, full, msp in Members(order), rbBatch)
      modifies `all, `files
      ensures Whole() && all == old(all) + [msp] && files == old(files) + [full]
    {
      MembersAppend(all, msp);
      all, files := all + [msp], files + [full];
    }

    /** A new stream with its first batch. */
    static method NewStream(id: nat, file: seq<Rec>, rbBatch: nat) returns (msp: MsStream, ndone: nat)
      ensures fresh(msp) && msp.id == id && msp.next == null && (ndone != 0 <==> msp.queue != [])
      ensures Accounted([], id, msp.queue, msp.file, ReadAll(file, rbBatch), ndone != 0, rbBatch)
    {
      msp := new MsStream(id, file);
      ndone := msp.Prime(rbBatch);
      assert [] + ReadAll(file, rbBatch) == ReadAll(file, rbBatch);
    }

    /** `ms_alloc`; `full` is what will be read of the file. */
    method MsAlloc(id: nat, file: seq<Rec>, ghost full: seq<Rec>) returns (msp: MsStream)
      requires Valid() && Whole() && out == [] && id == |all| && full == ReadAll(file, rbBatch)
      modifies `head, `order, `all, `files, Members(order)`next
      ensures fresh(msp) && all == old(all) + [msp] && files == old(files) + [full]
      ensures Valid() && Whole()
    {
      var ndone;
      msp, ndone := NewStream(id, file, rbBatch);
      MsHang(msp, ndone != 0);
      Enroll(msp, full);
    }

    /** The same for file `id` of those of which `want` will be read. */
    method MsAllocNext(id: nat, file: seq<Rec>, ghost want: seq<seq<Rec>>, ghost made: set<MsStream>)
      returns (msp: MsStream)
      requires Valid() && Whole() && out == [] && id < |want| && want[id] == ReadAll(file, rbBatch)
      requires |files| == id && files <= want && Members(all) == made
      modifies `head, `order, `all, `files, made`next
      ensures fresh(msp) && Members(all) == made + {msp} && |files| == id + 1 && files <= want
      ensures Valid() && Whole()
    {
      PrefixNext(files, want);
      ghost var was := all;
      msp := MsAlloc(id, file, want[id]);
      MembersAppend(was, msp);
    }

    ghost predicate FilesOrdered()
      reads `files
    {
      forall i :: 0 <= i < |files| ==> Ordered(files[i])
    }

    /** As `MsDeq`; what is then at the head is no earlier than `t`, if what was at the head and is behind it is not. */
    method MsDeqFrom(msp: MsStream, ghost t: nat)
      requires Valid() && head == msp && t <= msp.queue[0].time
      requires var r := Dequeued(msp.queue, msp.file, rbBatch); r.0 != [] ==> t <= r.0[0].time
      modifies `head, `order, Members(order)`next, msp`queue, msp`file
      ensures var r := Dequeued(old(msp.queue), old(msp.file), rbBatch); msp.queue == r.0 && msp.file == r.1
      ensures Valid() && Members(order) == Members(old(order)) - (if msp.queue == [] then {msp} else {})
      ensures head != null ==> t <= head.queue[0].time
    {
      assert forall i :: 0 <= i < |order| ==> t <= order[i].queue[0].time;
      MsDeq(msp);
      if head != null {
        assert head in Members(order);
      }
    }

    /** All streams but the one of file `id` are accounted for with `log` out. */
    ghost predicate OthersAccounted(log: seq<Out>, id: nat)
      reads `order, `all, `files, all
    {
      |all| == |files| && forall i :: 0 <= i < |all| && i != id ==>
        Accounted(log, i, all[i].queue, all[i].file, files[i], all[i] in Members(order), rbBatch)
    }

    lemma OthersAfter(o: Out)
      requires WholeBut(out, Members(order))
      ensures OthersAccounted(out + [o], o.file)
    {
      forall i | 0 <= i < |all| && i != o.file
        ensures Accounted(out + [o], i, all[i].queue, all[i].file, files[i], all[i] in Members(order), rbBatch)
      {
        FromOther(out, o, i, all[i].queue, all[i].file, files[i], all[i] in Members(order), rbBatch);
      }
    }

    /** The head's next trace goes out, and the list is put in order. */
    method Take(msp: MsStream, ghost o: Out)
      requires Valid() && Whole() && FilesOrdered() && head == msp
      requires o.file == msp.id && o.rec == msp.queue[0]
      modifies `head, `order, Members(order)`next, msp`queue, msp`file
      ensures Valid() && Members(order) <= Members(old(order))
      ensures Members(order) <= Members(all) && WholeBut(old(out) + [o], Members(order))
      ensures head != null ==> o.rec.time <= head.queue[0].time
    {
      ghost var id := msp.id;
      assert msp in Members(order) && msp in Members(all);
      assert msp == all[id];
      FromOne(out, o, msp.queue, msp.file, files[id], rbBatch);
      NextIsLater(out, o, msp.queue, msp.file, files[id], rbBatch);
      OthersAfter(o);
      MsDeqFrom(msp, o.rec.time);
      assert OthersAccounted(out + [o], id);
    }

    method Log(o: Out)
      requires Valid() && Members(order) <= Members(all) && WholeBut(out + [o], Members(order))
      modifies `out
      ensures Valid() && Whole() && out == old(out) + [o]
    {
      out := out + [o];
    }

    method Advance(msp: MsStream, shown: nat)
      requires Valid() && Whole() && Timely() && FilesOrdered() && head == msp
      requires shown == msp.queue[0].time - genesis <= stopwatchEnd
      modifies `head, `order, `out, Members(order)`next, msp`queue, msp`file
      ensures Valid() && Whole() && Timely()
      ensures out == old(out) + [Out(msp.id, old(msp.queue[0]), shown)]
    {
      var o := Out(msp.id, msp.queue[0], shown);
      OutAppend(out, o, genesis, stopwatchEnd);
      Take(msp, o);
      Log(o);
    }

    /** `handle`: the head's first trace, unless it is behind the window. */
    method Handle() returns (goOn: bool)
      requires Valid() && Whole() && Timely() && FilesOrdered() && head != null
      modifies `head, `order, `out, Members(order)`next, head`queue, head`file
      ensures Valid() && Whole() && Timely()
      ensures goOn ==> out == old(out + [Out(head.id, head.queue[0], head.queue[0].time - genesis)])
      ensures !goOn ==> head != null && head.queue[0].time - genesis > stopwatchEnd && out == old(out)
    {
      var shown := (head.queue[0].time - genesis) % TWO_64;
      if shown > stopwatchEnd {
        return false;
      }
      Advance(head, shown);
      goOn := true;
    }

    /** No more can come out than is in the files. */
    lemma Bounded()
      requires Whole()
      ensures |out| <= Total(files)
    {
      EachFromOne(out, |files|);
      forall i | 0 <= i < |files| ensures |From(out, i)| <= |files[i]| {
        assert Accounted(out, i, all[i].queue, all[i].file, files[i], all[i] in Members(order), rbBatch);
      }
      FromAtMost(out, files);
    }

    /** When nothing that is pending is in the window, all that is in it is out. */
    lemma Settled(i: nat)
      requires Valid() && Whole() && Timely() && FilesOrdered() && i < |files|
      requires head != null ==> head.queue[0].time - genesis > stopwatchEnd
      ensures From(out, i) == Window(files[i], genesis, stopwatchEnd)
    {
      var s := all[i];
      assert Accounted(out, i, s.queue, s.file, files[i], s in Members(order), rbBatch);
      PendingOrdered(out, i, s.queue, s.file, files[i], s in Members(order), rbBatch);
      var left := Pending(s.queue, s.file, rbBatch);
      if s.queue != [] {
        var k :| 0 <= k < |order| && order[k] == s;
        assert left[0] == s.queue[0];
      }
      FromInWindow(out, i, genesis, stopwatchEnd);
      WindowSplit(From(out, i), left, genesis, stopwatchEnd);
    }

    lemma AllSettled(read: seq<seq<Rec>>)
      requires Valid() && Whole() && Timely() && FilesOrdered() && files == AllRead(read, rbBatch)
      requires head != null ==> head.queue[0].time - genesis > stopwatchEnd
      ensures forall i :: 0 <= i < |read| ==>
        From(out, i) == Window(ReadAll(read[i], rbBatch), genesis, stopwatchEnd)
      ensures forall k :: 0 <= k < |out| ==> out[k].file < |read|
    {
      forall i | 0 <= i < |read|
        ensures From(out, i) == Window(ReadAll(read[i], rbBatch), genesis, stopwatchEnd)
      {
        Settled(i);
      }
    }

    /** The head has the least time of all that is pending. */
    lemma HeadIsLeast(i: nat, k: nat)
      requires Valid() && Whole() && FilesOrdered() && out == [] && i < |files| && k < |files[i]|
      ensures head != null && head.queue[0].time <= files[i][k].time
    {
      var s := all[i];
      assert Accounted(out, i, s.queue, s.file, files[i], s in Members(order), rbBatch);
      assert files[i] == Pending(s.queue, s.file, rbBatch);
      PendingOrdered(out, i, s.queue, s.file, files[i], s in Members(order), rbBatch);
      var j :| 0 <= j < |order| && order[j] == s;
      assert Pending(s.queue, s.file, rbBatch)[0] == s.queue[0];
    }

    /** The first trace at the head is from one of the files. */
    lemma HeadIsPending() returns (i: nat)
      requires Valid() && Whole() && out == [] && head != null
      ensures i < |files| && files[i] != [] && files[i][0] == head.queue[0]
    {
      assert head in Members(order) && head in Members(all);
      i := head.id;
      assert Accounted(out, i, head.queue, head.file, files[i], true, rbBatch);
    }

    lemma HeadIsLeastOfAll()
      requires Valid() && Whole() && FilesOrdered() && out == [] && head != null
      ensures AllAtLeast(files, head.queue[0].time)
    {
      forall i, k | 0 <= i < |files| && 0 <= k < |files[i]| ensures head.queue[0].time <= files[i][k].time {
        HeadIsLeast(i, k);
      }
    }

    lemma NothingToRead()
      requires Valid() && Whole() && FilesOrdered() && out == [] && head == null
      ensures forall i :: 0 <= i < |files| ==> files[i] == []
    {
      forall i | 0 <= i < |files| ensures files[i] == [] {
        if files[i] != [] {
          HeadIsLeast(i, 0);
        }
      }
    }

    /** The time at the head is the least there is; without a head there is none. */
    lemma HeadIsGenesis()
      requires Valid() && Whole() && FilesOrdered() && out == []
      requires genesis == if head == null then 0 else head.queue[0].time
      ensures Timely() && IsGenesis(files, genesis)
    {
      if head != null {
        HeadIsLeastOfAll();
        var i := HeadIsPending();
      } else {
        NothingToRead();
      }
    }

    method StoreGenesis()
      requires Valid() && Whole()
      modifies `genesis
      ensures Valid() && Whole() && genesis == if head == null then 0 else head.queue[0].time
    {
      genesis := 0;
      if head != null {
        genesis := head.queue[0].time;
      }
    }

    /** The time that all others are shown relative to. */
    method SetGenesis()
      requires Valid() && Whole() && FilesOrdered() && out == []
      modifies `genesis
      ensures Valid() && Whole() && Timely() && IsGenesis(files, genesis)
    {
      StoreGenesis();
      HeadIsGenesis();
    }

    /** The loop of `do_file`. */
    method HandleAll()
      requires Valid() && Whole() && Timely() && FilesOrdered()
      modifies `head, `order, `out, Members(all)`next, Members(all)`queue, Members(all)`file
      ensures Valid() && Whole() && Timely()
      ensures head != null ==> head.queue[0].time - genesis > stopwatchEnd
    {
      var more := true;
      while more && head != null
        invariant Valid() && Whole() && Timely()
        invariant !more ==> head != null && head.queue[0].time - genesis > stopwatchEnd
        decreases more, Total(files) - |out|
      {
        Bounded();
        assert head in Members(order);
        more := Handle();
        Bounded();
      }
    }
  }

  predicate AllAtLeast(files: seq<seq<Rec>>, t: nat) {
    forall i, k :: 0 <= i < |files| && 0 <= k < |files[i]| ==> t <= files[i][k].time
  }

  /** The least time there is, if there is any. */
  ghost predicate IsGenesis(files: seq<seq<Rec>>, t: nat) {
    && AllAtLeast(files, t)
    && ((forall i :: 0 <= i < |files| ==> files[i] == [])
        || exists i :: 0 <= i < |files| && files[i] != [] && files[i][0].time == t)
  }

  function AllRead(files: seq<seq<Rec>>, rbBatch: nat): seq<seq<Rec>> {
    seq(|files|, i requires 0 <= i < |files| => ReadAll(files[i], rbBatch))
  }

  /** One stream for each file, of which `want` will be read. */
  method AllocAll(m: Merger, files: seq<seq<Rec>>, ghost want: seq<seq<Rec>>)
    requires m.Valid() && m.Whole() && m.out == [] && m.all == [] && m.files == []
    requires |want| == |files| && forall i :: 0 <= i < |files| ==> want[i] == ReadAll(files[i], m.rbBatch)
    modifies m
    ensures m.Valid() && m.Whole() && m.out == [] && m.files == want && fresh(Members(m.all))
  {
    ghost var made: set<MsStream> := {};
    for i := 0 to |files|
      invariant fresh(made) && Members(m.all) == made
      invariant |m.files| == i && m.files <= want && m.out == []
      invariant m.Valid() && m.Whole()
    {
      var msp := m.MsAllocNext(i, files[i], want, made);
      made := made + {msp};
    }
  }

  /** `do_file` sets up all streams first. */
  method Setup(files: seq<seq<Rec>>, rbBatch: nat, stopwatchEnd: U64) returns (m: Merger)
    ensures fresh(m) && fresh(Members(m.all)) && m.rbBatch == rbBatch && m.stopwatchEnd == stopwatchEnd
    ensures m.files == AllRead(files, rbBatch) && m.out == [] && m.Valid() && m.Whole()
  {
    m := new Merger(rbBatch, stopwatchEnd);
    AllocAll(m, files, AllRead(files, rbBatch));
  }

  lemma ReadInOrder(files: seq<seq<Rec>>, rbBatch: nat)
    requires forall i :: 0 <= i < |files| ==> Ordered(Traces(files[i]))
    ensures forall i :: 0 <= i < |files| ==> Ordered(AllRead(files, rbBatch)[i])
  {
    forall i | 0 <= i < |files| ensures Ordered(ReadAll(files[i], rbBatch)) {
      ReadsAllIff(files[i], rbBatch);
    }
  }

  /**
    `do_file`: of what is read from every file all traces in the window come out, in their
    order and once, and all together in order of time, whatever the size of the batches.
   */
  method DoFile(files: seq<seq<Rec>>, rbBatch: nat, stopwatchEnd: U64) returns (out: seq<Out>, genesis: nat)
    requires forall i :: 0 <= i < |files| ==> Ordered(Traces(files[i]))
    ensures IsGenesis(AllRead(files, rbBatch), genesis) && InWindow(out, genesis, stopwatchEnd)
    ensures forall i :: 0 <= i < |files| ==> From(out, i) == Window(ReadAll(files[i], rbBatch), genesis, stopwatchEnd)
    ensures forall k :: 0 <= k < |out| ==> out[k].file < |files|
  {
    ReadInOrder(files, rbBatch);
    var m := Setup(files, rbBatch, stopwatchEnd);
    m.SetGenesis();
    m.HandleAll();
    out, genesis := m.out, m.genesis;
    m.AllSettled(files);
  }

  lemma {:induction false} FromInWindow(out: seq<Out>, id: nat, genesis: nat, end: nat)
    requires forall i :: 0 <= i < |out| ==> out[i].rec.time - genesis <= end
    ensures forall i :: 0 <= i < |From(out, id)| ==> From(out, id)[i].time - genesis <= end
  {
    if out != [] {
      FromInWindow(out[..|out| - 1], id, genesis, end);
    }
  }

  lemma FromOne(out: seq<Out>, o: Out, queue: seq<Rec>, file: seq<Rec>, full: seq<Rec>, rbBatch: nat)
    requires queue != [] && Accounted(out, o.file, queue, file, full, true, rbBatch) && o.rec == queue[0]
    ensures var r := Dequeued(queue, file, rbBatch); Accounted(out + [o], o.file, r.0, r.1, full, r.0 != [], rbBatch)
  {
    var r := Dequeued(queue, file, rbBatch);
    assert [o.rec] + Pending(r.0, r.1, rbBatch) == Pending(queue, file, rbBatch) by {
      DequeuedKeeps(queue, file, rbBatch);
    }
    assert From(out + [o], o.file) == From(out, o.file) + [o.rec] by {
      FromAppend(out, o, o.file);
    }
    Regroup(From(out, o.file), o.rec, Pending(r.0, r.1, rbBatch));
  }

  lemma Regroup(done: seq<Rec>, rec: Rec, left: seq<Rec>)
    ensures done + [rec] + left == done + ([rec] + left)
  {
  }

  lemma FromOther(out: seq<Out>, o: Out, id: nat, queue: seq<Rec>, file: seq<Rec>, full: seq<Rec>,
                  listed: bool, rbBatch: nat)
    requires Accounted(out, id, queue, file, full, listed, rbBatch) && o.file != id
    ensures Accounted(out + [o], id, queue, file, full, listed, rbBatch)
  {
    FromAppend(out, o, id);
    assert From(out, id) + [] == From(out, id);
  }

  /** What is pending is in order, since the file is. */
  lemma PendingOrdered(out: seq<Out>, id: nat, queue: seq<Rec>, file: seq<Rec>, full: seq<Rec>,
                       listed: bool, rbBatch: nat)
    requires Accounted(out, id, queue, file, full, listed, rbBatch) && Ordered(full)
    ensures Ordered(Pending(queue, file, rbBatch))
  {
    var done, left := From(out, id), Pending(queue, file, rbBatch);
    forall i, j | 0 <= i <= j < |left| ensures left[i].time <= left[j].time {
      assert full[|done| + i] == left[i] && full[|done| + j] == left[j];
    }
  }

  lemma NextIsLater(out: seq<Out>, o: Out, queue: seq<Rec>, file: seq<Rec>, full: seq<Rec>, rbBatch: nat)
    requires queue != [] && Accounted(out, o.file, queue, file, full, true, rbBatch) && o.rec == queue[0]
    requires Ordered(full)
    ensures var r := Dequeued(queue, file, rbBatch); r.0 != [] ==> o.rec.time <= r.0[0].time
  {
    PendingOrdered(out, o.file, queue, file, full, true, rbBatch);
    DequeuedKeeps(queue, file, rbBatch);
    var r := Dequeued(queue, file, rbBatch);
    if r.0 != [] {
      var left := Pending(queue, file, rbBatch);
      assert left == [o.rec] + Pending(r.0, r.1, rbBatch);
      assert left[0] == o.rec && left[1] == r.0[0];
    }
  }

  lemma PrefixNext(s: seq<seq<Rec>>, want: seq<seq<Rec>>)
    requires s <= want && |s| < |want|
    ensures s + [want[|s|]] <= want
  {
  }

  lemma MembersAppend(order: seq<MsStream>, s: MsStream)
    ensures Members(order + [s]) == Members(order) + {s}
  {
  }

  ghost function Members(order: seq<MsStream>): set<MsStream> {
    set s | s in order
  }

  lemma MembersInsert(order: seq<MsStream>, k: nat, s: MsStream)
    requires k <= |order|
    ensures Members(Insert(order, k, s)) == Members(order) + {s} == Members([s] + order)
  {
    assert order == order[..k] + order[k..];
  }

  lemma HeadInPlace(order: seq<MsStream>)
    requires order != [] && order[0].queue != [] && Sorted(order[1..])
    requires |order| > 1 ==> order[1].queue[0].time >= order[0].queue[0].time
    ensures Sorted(order)
  {
    forall i | 0 < i < |order| ensures order[i] == order[1..][i - 1] {}
  }

  lemma RestSorted(order: seq<MsStream>)
    requires Sorted(order) && order != []
    ensures Sorted(order[1..])
  {
    forall i | 0 <= i < |order| - 1 ensures order[1..][i] == order[i + 1] {}
  }

  lemma MembersRest(order: seq<MsStream>)
    requires order != [] && order[0] !in order[1..]
    ensures Members(order[1..]) == Members(order) - {order[0]}
  {
    assert order == [order[0]] + order[1..];
  }

  // ---------- how many can come out ----------

  function FromAll(out: seq<Out>, n: nat): nat {
    if n == 0 then 0 else FromAll(out, n - 1) + |From(out, n - 1)|
  }

  function Total(files: seq<seq<Rec>>): nat {
    if files == [] then 0 else Total(files[..|files| - 1]) + |files[|files| - 1]|
  }

  lemma {:induction false} FromAllAppend(out: seq<Out>, o: Out, n: nat)
    ensures FromAll(out + [o], n) == FromAll(out, n) + (if o.file < n then 1 else 0)
  {
    if n > 0 {
      FromAllAppend(out, o, n - 1);
      FromAppend(out, o, n - 1);
    }
  }

  lemma {:induction false} FromNothing(n: nat)
    ensures FromAll([], n) == 0
  {
    if n > 0 {
      FromNothing(n - 1);
    }
  }

  lemma {:induction false} EachFromOne(out: seq<Out>, n: nat)
    requires forall i :: 0 <= i < |out| ==> out[i].file < n
    ensures FromAll(out, n) == |out|
  {
    if out == [] {
      FromNothing(n);
    } else {
      var o := out[|out| - 1];
      EachFromOne(out[..|out| - 1], n);
      assert out == out[..|out| - 1] + [o];
      FromAllAppend(out[..|out| - 1], o, n);
    }
  }

  lemma {:induction false} FromAtMost(out: seq<Out>, files: seq<seq<Rec>>)
    requires forall i :: 0 <= i < |files| ==> |From(out, i)| <= |files[i]|
    ensures FromAll(out, |files|) <= Total(files)
  {
    if files != [] {
      FromAtMost(out, files[..|files| - 1]);
    }
  }
}

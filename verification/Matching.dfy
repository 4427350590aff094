/**
  blkiomon pairs issue and completion events: what an event does depends only on the one
  event with the same key that is still waiting.
 */
module Matching {
  import opened TraceApi

  /** The fields of a trace that matter here. */
  datatype Bit = Bit(time: nat, sector: nat, device: nat, action: bv32)

  /** Events of one device, sector and kind of request belong together. */
  datatype Key = Key(device: nat, sector: nat, kind: bv32)

  /** `action`: read, write, file system and packet command bits. */
  function KeyOf(b: Bit): Key {
    Key(b.device, b.sector, b.action & 0x0303_0000)
  }

  predicate Issue(b: Bit) { b.action & 0x0040_0000 != 0 }

  predicate Complete(b: Bit) { b.action & 0x0080_0000 != 0 }

  /** Driver data are passed on elsewhere, and of the rest only issues and completions are looked at. */
  predicate Relevant(b: Bit) {
    b.action & 0x4000_0000 == 0 && (Issue(b) || Complete(b))
  }

  datatype Pair = Pair(old_: Bit, young: Bit)

  /** Events of the same time: the one that was stored counts as the younger. */
  function ByAge(stored: Bit, b: Bit): Pair {
    if stored.time < b.time then Pair(stored, b) else Pair(b, stored)
  }

  predicate Matches(p: Pair) {
    Issue(p.old_) && Complete(p.young)
  }

  // ---------- what the bits of an action say ----------

  /** Two events of one device and sector, and of the same kind of request in each of four ways. */
  predicate SameRequest(a: Bit, b: Bit) {
    && a.device == b.device && a.sector == b.sector
    && Agree(a.action, b.action, TC_READ) && Agree(a.action, b.action, TC_WRITE)
    && Agree(a.action, b.action, TC_FS) && Agree(a.action, b.action, TC_PC)
  }

  /** Two words agree in four bits at once if and only if they agree in each. */
  lemma FourBits(a: bv32, b: bv32)
    ensures a & 0x0303_0000 == b & 0x0303_0000 <==>
      && a & 0x1_0000 == b & 0x1_0000 && a & 0x2_0000 == b & 0x2_0000
      && a & 0x100_0000 == b & 0x100_0000 && a & 0x200_0000 == b & 0x200_0000
  {
  }

  predicate Agree(a: bv32, b: bv32, category: bv32) {
    Has(a, category) == Has(b, category)
  }

  lemma AgreeRead(a: bv32, b: bv32)
    ensures Agree(a, b, TC_READ) <==> a & 0x1_0000 == b & 0x1_0000
  {
    assert Act(TC_READ) == 0x1_0000;
  }

  lemma AgreeWrite(a: bv32, b: bv32)
    ensures Agree(a, b, TC_WRITE) <==> a & 0x2_0000 == b & 0x2_0000
  {
    assert Act(TC_WRITE) == 0x2_0000;
  }

  lemma AgreeFs(a: bv32, b: bv32)
    ensures Agree(a, b, TC_FS) <==> a & 0x100_0000 == b & 0x100_0000
  {
    assert Act(TC_FS) == 0x100_0000;
  }

  lemma AgreePc(a: bv32, b: bv32)
    ensures Agree(a, b, TC_PC) <==> a & 0x200_0000 == b & 0x200_0000
  {
    assert Act(TC_PC) == 0x200_0000;
  }

  /** Events share a key if and only if they agree in these six things. */
  lemma SameKeyIff(a: Bit, b: Bit)
    ensures KeyOf(a) == KeyOf(b) <==> SameRequest(a, b)
  {
    FourBits(a.action, b.action);
    AgreeRead(a.action, b.action);
    AgreeWrite(a.action, b.action);
    AgreeFs(a.action, b.action);
    AgreePc(a.action, b.action);
  }

  /** Of the actions of a request, issues and completions count, each as what it is, and no others. */
  lemma IssuesAndCompletions(b: Bit, extra: bv32)
    requires Masked(extra)
    ensures b.action == TA_ISSUE | extra ==> Relevant(b) && Issue(b) && !Complete(b)
    ensures b.action == TA_COMPLETE | extra ==> Relevant(b) && Complete(b) && !Issue(b)
    ensures b.action == TA_QUEUE | extra || b.action == TA_REQUEUE | extra || b.action == TA_DRV_DATA | extra ==>
      !Relevant(b)
  {
  }

  lemma IssueIs(b: Bit)
    ensures Issue(b) <==> Has(b.action, TC_ISSUE)
  {
    assert Act(TC_ISSUE) == 0x40_0000;
  }

  lemma CompleteIs(b: Bit)
    ensures Complete(b) <==> Has(b.action, TC_COMPLETE)
  {
    assert Act(TC_COMPLETE) == 0x80_0000;
  }

  lemma DriverDataIs(b: Bit)
    ensures b.action & 0x4000_0000 != 0 <==> Has(b.action, TC_DRV_DATA)
  {
    assert Act(TC_DRV_DATA) == 0x4000_0000;
  }

  /** Issues and completions count, but not with driver data. */
  lemma RelevantIff(b: Bit)
    ensures Relevant(b) <==> !Has(b.action, TC_DRV_DATA) && (Has(b.action, TC_ISSUE) || Has(b.action, TC_COMPLETE))
  {
    DriverDataIs(b);
    IssueIs(b);
    CompleteIs(b);
  }

  /** What is accounted: an issue and a completion of one request, the completion not older. */
  predicate Accountable(p: Pair) {
    SameRequest(p.old_, p.young) && Has(p.old_.action, TC_ISSUE) && Has(p.young.action, TC_COMPLETE)
    && p.old_.time <= p.young.time
  }

  lemma GoodIsAccountable(p: Pair)
    ensures GoodPair(p) && KeyOf(p.old_) == KeyOf(p.young) <==> Accountable(p)
  {
    SameKeyIff(p.old_, p.young);
    IssueIs(p.old_);
    CompleteIs(p.young);
  }

  // ---------- one key ----------

  datatype Cell = Empty | Waiting(bit: Bit)

  /** What is waiting for one key, what was paired and what was given up. */
  datatype Slot = Slot(cell: Cell, pairs: seq<Pair>, dropped: seq<Bit>)

  const FRESH := Slot(Empty, [], [])

  function Feed(s: Slot, b: Bit): Slot {
    match s.cell
    case Empty => s.(cell := Waiting(b))
    case Waiting(stored) =>
      var p := ByAge(stored, b);
      if Matches(p) then Slot(Empty, s.pairs + [p], s.dropped)
      else Slot(Waiting(p.young), s.pairs, s.dropped + [p.old_])
  }

  function FeedAll(bs: seq<Bit>): Slot {
    if bs == [] then FRESH else Feed(FeedAll(bs[..|bs| - 1]), bs[|bs| - 1])
  }

  function Olds(ps: seq<Pair>): seq<Bit> {
    if ps == [] then [] else Olds(ps[..|ps| - 1]) + [ps[|ps| - 1].old_]
  }

  function Youngs(ps: seq<Pair>): seq<Bit> {
    if ps == [] then [] else Youngs(ps[..|ps| - 1]) + [ps[|ps| - 1].young]
  }

  function InCell(c: Cell): seq<Bit> {
    if c.Empty? then [] else [c.bit]
  }

  /** How often `x` is in `bs`. */
  function Times(bs: seq<Bit>, x: Bit): nat {
    if bs == [] then 0 else Times(bs[..|bs| - 1], x) + (if bs[|bs| - 1] == x then 1 else 0)
  }

  /** How often `x` is in a pair, given up, or waiting. */
  function Used(s: Slot, x: Bit): nat {
    Times(Olds(s.pairs), x) + Times(Youngs(s.pairs), x) + Times(s.dropped, x) + Times(InCell(s.cell), x)
  }

  lemma TimesAppend(bs: seq<Bit>, b: Bit, x: Bit)
    ensures Times(bs + [b], x) == Times(bs, x) + (if b == x then 1 else 0)
  {
    assert (bs + [b])[..|bs|] == bs;
  }

  lemma PairsAppend(ps: seq<Pair>, p: Pair)
    ensures Olds(ps + [p]) == Olds(ps) + [p.old_] && Youngs(ps + [p]) == Youngs(ps) + [p.young]
  {
    assert (ps + [p])[..|ps|] == ps;
  }

  function One(b: Bit, x: Bit): nat { if b == x then 1 else 0 }

  lemma PairUses(ps: seq<Pair>, dropped: seq<Bit>, p: Pair, x: Bit)
    ensures Used(Slot(Empty, ps + [p], dropped), x)
      == Used(Slot(Empty, ps, dropped), x) + One(p.old_, x) + One(p.young, x)
  {
    PairsAppend(ps, p);
    TimesAppend(Olds(ps), p.old_, x);
    TimesAppend(Youngs(ps), p.young, x);
  }

  lemma DropUses(ps: seq<Pair>, dropped: seq<Bit>, b: Bit, x: Bit)
    ensures Used(Slot(Empty, ps, dropped + [b]), x) == Used(Slot(Empty, ps, dropped), x) + One(b, x)
  {
    TimesAppend(dropped, b, x);
  }

  lemma WaitUses(ps: seq<Pair>, dropped: seq<Bit>, b: Bit, x: Bit)
    ensures Used(Slot(Waiting(b), ps, dropped), x) == Used(Slot(Empty, ps, dropped), x) + One(b, x)
  {
    TimesAppend([], b, x);
    assert [] + [b] == [b];
  }

  lemma FeedUses(s: Slot, b: Bit, x: Bit)
    ensures Used(Feed(s, b), x) == Used(s, x) + One(b, x)
  {
    if s.cell.Waiting? {
      var p := ByAge(s.cell.bit, b);
      WaitUses(s.pairs, s.dropped, s.cell.bit, x);
      PairUses(s.pairs, s.dropped, p, x);
      DropUses(s.pairs, s.dropped, p.old_, x);
      WaitUses(s.pairs, s.dropped + [p.old_], p.young, x);
    } else {
      WaitUses(s.pairs, s.dropped, b, x);
    }
  }

  /** Every event is in one pair, given up, or waiting: none is used twice and none is lost. */
  lemma {:induction false} EveryEventOnce(bs: seq<Bit>, x: Bit)
    ensures Used(FeedAll(bs), x) == Times(bs, x)
  {
    if bs != [] {
      var n := |bs| - 1;
      EveryEventOnce(bs[..n], x);
      FeedUses(FeedAll(bs[..n]), bs[n], x);
      TimesAppend(bs[..n], bs[n], x);
      assert bs == bs[..n] + [bs[n]];
    }
  }

  /** Every pair is an issue and a completion that is not older. */
  predicate GoodPair(p: Pair) {
    Matches(p) && p.old_.time <= p.young.time
  }

  lemma {:induction false} PairsAreGood(bs: seq<Bit>)
    ensures forall i :: 0 <= i < |FeedAll(bs).pairs| ==> GoodPair(FeedAll(bs).pairs[i])
  {
    if bs != [] {
      PairsAreGood(bs[..|bs| - 1]);
    }
  }

  /** Of events `2 * i` and `2 * i + 1` the older is an issue and the younger a completion. */
  predicate PairsAt(bs: seq<Bit>, i: nat) {
    2 * i + 1 < |bs| ==> Matches(ByAge(bs[2 * i], bs[2 * i + 1]))
  }

  ghost predicate PairedUp(bs: seq<Bit>) {
    forall i: nat :: i < |bs| ==> PairsAt(bs, i)
  }

  /** The events are paired as they come, and one that has no partner yet is waiting. */
  predicate AllPaired(bs: seq<Bit>, s: Slot) {
    && s.dropped == [] && |s.pairs| == |bs| / 2
    && s.cell == (if |bs| % 2 == 0 then Empty else Waiting(bs[|bs| - 1]))
    && forall i :: 0 <= i < |s.pairs| ==> s.pairs[i] == ByAge(bs[2 * i], bs[2 * i + 1])
  }

  lemma PairedUpLast(bs: seq<Bit>)
    requires bs != []
    ensures var n := |bs| - 1;
      PairedUp(bs) <==> PairedUp(bs[..n]) && (n % 2 == 1 ==> Matches(ByAge(bs[n - 1], bs[n])))
  {
    var n := |bs| - 1;
    var front := bs[..n];
    assert forall i: nat :: i < |front| ==>
      (PairsAt(bs, i) <==> PairsAt(front, i) && (2 * i + 1 == n ==> PairsAt(bs, i)));
    assert PairsAt(bs, n);
    if n % 2 == 1 {
      assert 2 * (n / 2) + 1 == n && PairsAt(front, n / 2);
      assert PairsAt(bs, n / 2) <==> Matches(ByAge(bs[n - 1], bs[n]));
    }
  }

  /** Nothing is given up if and only if each two events match as they come, and then all are paired. */
  lemma {:induction false} NothingGivenUpIff(bs: seq<Bit>)
    ensures FeedAll(bs).dropped == [] <==> PairedUp(bs)
    ensures PairedUp(bs) ==> AllPaired(bs, FeedAll(bs))
  {
    if bs != [] {
      var n := |bs| - 1;
      NothingGivenUpIff(bs[..n]);
      PairedUpLast(bs);
      assert FeedAll(bs) == Feed(FeedAll(bs[..n]), bs[n]);
    }
  }

  /** Issues and completions in turn. */
  predicate Alternating(bs: seq<Bit>) {
    forall i :: 0 <= i < |bs| ==> if i % 2 == 0 then Issue(bs[i]) else Complete(bs[i])
  }

  /** No event is an issue and a completion at once. */
  predicate OfOneKind(bs: seq<Bit>) {
    forall i :: 0 <= i < |bs| ==> !(Issue(bs[i]) && Complete(bs[i]))
  }

  predicate LaterAt(bs: seq<Bit>, i: nat) {
    2 * i + 1 < |bs| ==> bs[2 * i].time < bs[2 * i + 1].time
  }

  ghost predicate EachLater(bs: seq<Bit>) {
    forall i: nat :: i < |bs| ==> LaterAt(bs, i)
  }

  lemma MatchIsLater(a: Bit, b: Bit)
    requires Issue(a) && Complete(b)
    ensures a.time < b.time ==> Matches(ByAge(a, b))
    ensures !(Issue(b) && Complete(b)) && Matches(ByAge(a, b)) ==> a.time < b.time
  {
  }

  lemma PairsAtIsLater(bs: seq<Bit>, i: nat)
    requires Alternating(bs)
    ensures LaterAt(bs, i) ==> PairsAt(bs, i)
    ensures OfOneKind(bs) && PairsAt(bs, i) ==> LaterAt(bs, i)
  {
    if 2 * i + 1 < |bs| {
      var a, b := bs[2 * i], bs[2 * i + 1];
      assert Issue(a) && Complete(b) && (OfOneKind(bs) ==> !(Issue(b) && Complete(b)));
      MatchIsLater(a, b);
    }
  }

  /**
    Then all are paired if each completion is later than its issue, and only then: with the
    same time the two are no pair.
   */
  lemma AlternatingPairsUp(bs: seq<Bit>)
    requires Alternating(bs)
    ensures EachLater(bs) ==> AllPaired(bs, FeedAll(bs))
    ensures OfOneKind(bs) ==> (FeedAll(bs).dropped == [] <==> EachLater(bs))
  {
    NothingGivenUpIff(bs);
    forall i: nat | i < |bs|
      ensures (LaterAt(bs, i) ==> PairsAt(bs, i)) && (OfOneKind(bs) && PairsAt(bs, i) ==> LaterAt(bs, i))
    {
      PairsAtIsLater(bs, i);
    }
  }

  // ---------- all keys at once ----------

  /** What is waiting, at most one event for a key, and all that was paired and given up. */
  datatype Table = Table(stored: map<Key, Bit>, pairs: seq<Pair>, dropped: seq<Bit>)

  const BLANK := Table(map[], [], [])

  /** `stored` was waiting when `b` came: a pair, or the younger goes on waiting. */
  function Settle(t: Table, stored: Bit, b: Bit): Table {
    var p := ByAge(stored, b);
    if Matches(p) then t.(pairs := t.pairs + [p])
    else t.(stored := t.stored[KeyOf(p.young) := p.young], dropped := t.dropped + [p.old_])
  }

  /** `blkiomon_do_trace` */
  function Do(t: Table, b: Bit): Table {
    var k := KeyOf(b);
    if k !in t.stored then t.(stored := t.stored[k := b])
    else Settle(t.(stored := t.stored - {k}), t.stored[k], b)
  }

  function DoAll(bs: seq<Bit>): Table {
    if bs == [] then BLANK else Do(DoAll(bs[..|bs| - 1]), bs[|bs| - 1])
  }

  predicate Keyed(t: Table) {
    forall k :: k in t.stored ==> KeyOf(t.stored[k]) == k
  }

  lemma {:induction false} StaysKeyed(bs: seq<Bit>)
    ensures Keyed(DoAll(bs))
  {
    if bs != [] {
      StaysKeyed(bs[..|bs| - 1]);
    }
  }

  lemma {:induction false} TablePairsMatch(bs: seq<Bit>)
    ensures forall i :: 0 <= i < |DoAll(bs).pairs| ==>
      GoodPair(DoAll(bs).pairs[i]) && KeyOf(DoAll(bs).pairs[i].old_) == KeyOf(DoAll(bs).pairs[i].young)
  {
    if bs != [] {
      TablePairsMatch(bs[..|bs| - 1]);
      StaysKeyed(bs[..|bs| - 1]);
    }
  }

  /** Whatever other events there are, a pair is an issue and a completion of one request, the completion not older. */
  lemma TablePairsAreGood(bs: seq<Bit>)
    ensures forall i :: 0 <= i < |DoAll(bs).pairs| ==> Accountable(DoAll(bs).pairs[i])
  {
    TablePairsMatch(bs);
    forall i | 0 <= i < |DoAll(bs).pairs| ensures Accountable(DoAll(bs).pairs[i]) {
      GoodIsAccountable(DoAll(bs).pairs[i]);
    }
  }

  lemma MapSizes(m: map<Key, Bit>, k: Key, b: Bit)
    ensures |m[k := b]| == |m| + (if k in m then 0 else 1)
    ensures |m - {k}| == |m| - (if k in m then 1 else 0)
  {
    assert m[k := b].Keys == m.Keys + {k};
    assert (m - {k}).Keys == m.Keys - {k};
  }

  function Score(t: Table): nat {
    2 * |t.pairs| + |t.dropped| + |t.stored|
  }

  lemma DoScores(t: Table, b: Bit)
    requires Keyed(t)
    ensures Score(Do(t, b)) == Score(t) + 1
  {
    var k := KeyOf(b);
    MapSizes(t.stored, k, b);
    if k in t.stored {
      MapSizes(t.stored - {k}, k, ByAge(t.stored[k], b).young);
    }
  }

  /** Events are paired off, given up one by one, or waiting. */
  lemma {:induction false} EventsAddUp(bs: seq<Bit>)
    ensures var t := DoAll(bs); |bs| == 2 * |t.pairs| + |t.dropped| + |t.stored|
  {
    if bs != [] {
      var n := |bs| - 1;
      EventsAddUp(bs[..n]);
      StaysKeyed(bs[..n]);
      DoScores(DoAll(bs[..n]), bs[n]);
    }
  }

  function OnlyBits(bs: seq<Bit>, k: Key): seq<Bit> {
    if bs == [] then []
    else OnlyBits(bs[..|bs| - 1], k) + (if KeyOf(bs[|bs| - 1]) == k then [bs[|bs| - 1]] else [])
  }

  function OnlyPairs(ps: seq<Pair>, k: Key): seq<Pair> {
    if ps == [] then []
    else OnlyPairs(ps[..|ps| - 1], k) + (if KeyOf(ps[|ps| - 1].young) == k then [ps[|ps| - 1]] else [])
  }

  lemma OnlyAppend(bs: seq<Bit>, b: Bit, ps: seq<Pair>, p: Pair, k: Key)
    ensures OnlyBits(bs + [b], k) == OnlyBits(bs, k) + (if KeyOf(b) == k then [b] else [])
    ensures OnlyPairs(ps + [p], k) == OnlyPairs(ps, k) + (if KeyOf(p.young) == k then [p] else [])
  {
    assert (bs + [b])[..|bs|] == bs && (ps + [p])[..|ps|] == ps;
  }

  /** The part of the table that one key sees. */
  function SlotOf(t: Table, k: Key): Slot {
    Slot(if k in t.stored then Waiting(t.stored[k]) else Empty, OnlyPairs(t.pairs, k), OnlyBits(t.dropped, k))
  }

  lemma DoIsLocal(t: Table, b: Bit, k: Key)
    requires Keyed(t)
    ensures SlotOf(Do(t, b), k) == if KeyOf(b) == k then Feed(SlotOf(t, k), b) else SlotOf(t, k)
  {
    var kb := KeyOf(b);
    if kb in t.stored {
      var p := ByAge(t.stored[kb], b);
      OnlyAppend(t.dropped, p.old_, t.pairs, p, k);
      assert OnlyPairs(t.pairs, k) + [] == OnlyPairs(t.pairs, k)
        && OnlyBits(t.dropped, k) + [] == OnlyBits(t.dropped, k);
    }
  }

  /** What becomes of the events of one key is the same as if there were no others. */
  lemma {:induction false} KeysAreIndependent(bs: seq<Bit>, k: Key)
    ensures SlotOf(DoAll(bs), k) == FeedAll(OnlyBits(bs, k))
  {
    if bs != [] {
      var n := |bs| - 1;
      KeysAreIndependent(bs[..n], k);
      StaysKeyed(bs[..n]);
      DoIsLocal(DoAll(bs[..n]), bs[n], k);
      var before := OnlyBits(bs[..n], k);
      assert (before + [bs[n]])[..|before|] == before;
      assert before + [] == before;
    }
  }
}

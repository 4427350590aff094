/** The hash of waiting events and the recycling of their structures. */
module Iomon {
  import opened Matching

  const TRACE_HASH_SIZE := 128
  const MAX_VACANT := 256
  const ZERO := Bit(0, 0, 0, 0)

  class Trace {
    var bit: Bit

    constructor ()
      ensures bit == ZERO
    {
      bit := ZERO;
    }
  }

  function Bucket(k: Key): nat {
    k.sector % TRACE_HASH_SIZE
  }

  /**
    The chains hold what is held for each key, in the chain of the key and nowhere else;
    `keyOf` is the inverse of `held`.
   */
  ghost predicate Hashed(chains: seq<seq<Trace>>, held: map<Key, Trace>, keyOf: map<Trace, Key>) {
    && |chains| == TRACE_HASH_SIZE
    && (forall k :: k in held ==> held[k] in keyOf && keyOf[held[k]] == k && held[k] in chains[Bucket(k)])
    && forall i :: 0 <= i < TRACE_HASH_SIZE ==> Chain(chains[i], i, held, keyOf)
  }

  ghost predicate Chain(ts: seq<Trace>, i: nat, held: map<Key, Trace>, keyOf: map<Trace, Key>) {
    && (forall j :: 0 <= j < |ts| ==>
         ts[j] in keyOf && Bucket(keyOf[ts[j]]) == i && keyOf[ts[j]] in held && held[keyOf[ts[j]]] == ts[j])
    && (forall j, l :: 0 <= j < l < |ts| ==> ts[j] != ts[l])
  }

  lemma WithoutOne(ts: seq<Trace>, j: nat, x: Trace)
    requires j < |ts| && x in ts && x != ts[j]
    ensures x in ts[..j] + ts[j + 1..]
  {
    var l :| 0 <= l < |ts| && ts[l] == x;
    assert ts == ts[..j] + [ts[j]] + ts[j + 1..];
  }

  lemma ChainWithoutOne(ts: seq<Trace>, i: nat, j: nat, held: map<Key, Trace>, keyOf: map<Trace, Key>)
    requires Chain(ts, i, held, keyOf) && j < |ts|
    ensures Chain(ts[..j] + ts[j + 1..], i, held - {keyOf[ts[j]]}, keyOf - {ts[j]})
  {
  }

  lemma ChainElsewhere(ts: seq<Trace>, i: nat, t: Trace, held: map<Key, Trace>, keyOf: map<Trace, Key>)
    requires Chain(ts, i, held, keyOf) && t in keyOf && Bucket(keyOf[t]) != i
    ensures Chain(ts, i, held - {keyOf[t]}, keyOf - {t})
  {
  }

  lemma Unchained(chains: seq<seq<Trace>>, held: map<Key, Trace>, keyOf: map<Trace, Key>, i: nat, j: nat)
    requires Hashed(chains, held, keyOf) && i < TRACE_HASH_SIZE && j < |chains[i]|
    ensures var t, ts := chains[i][j], chains[i];
      t in keyOf && Hashed(chains[i := ts[..j] + ts[j + 1..]], held - {keyOf[t]}, keyOf - {t})
  {
    var t, ts := chains[i][j], chains[i];
    assert Chain(ts, i, held, keyOf);
    var more, less := chains[i := ts[..j] + ts[j + 1..]], held - {keyOf[t]};
    forall l | 0 <= l < TRACE_HASH_SIZE ensures Chain(more[l], l, less, keyOf - {t}) {
      assert Chain(chains[l], l, held, keyOf);
      if l == i {
        ChainWithoutOne(ts, i, j, held, keyOf);
      } else {
        ChainElsewhere(chains[l], l, t, held, keyOf);
      }
    }
    forall k | k in less ensures less[k] in more[Bucket(k)] {
      if Bucket(k) == i {
        WithoutOne(ts, j, less[k]);
      }
    }
  }

  lemma Chained(chains: seq<seq<Trace>>, held: map<Key, Trace>, keyOf: map<Trace, Key>, t: Trace, k: Key)
    requires Hashed(chains, held, keyOf) && t !in keyOf && k !in held
    ensures Hashed(chains[Bucket(k) := [t] + chains[Bucket(k)]], held[k := t], keyOf[t := k])
  {
    var i := Bucket(k);
    var more := chains[i := [t] + chains[i]];
    forall l | 0 <= l < TRACE_HASH_SIZE ensures Chain(more[l], l, held[k := t], keyOf[t := k]) {
      assert Chain(chains[l], l, held, keyOf);
    }
    assert more[i][0] == t;
  }

  /** The structures that are held hold the events that are waiting. */
  ghost predicate Reflects(stored: map<Key, Bit>, held: map<Key, Trace>, keyOf: map<Trace, Key>)
    reads keyOf.Keys
  {
    && (forall k :: k in stored <==> k in held)
    && forall k :: k in held ==> held[k] in keyOf && stored[k] == held[k].bit
  }

  lemma ReflectsMore(stored: map<Key, Bit>, held: map<Key, Trace>, keyOf: map<Trace, Key>, t: Trace)
    requires Reflects(stored, held, keyOf) && t !in keyOf
    ensures Reflects(stored[KeyOf(t.bit) := t.bit], held[KeyOf(t.bit) := t], keyOf[t := KeyOf(t.bit)])
  {
  }

  lemma ReflectsLess(stored: map<Key, Bit>, held: map<Key, Trace>, keyOf: map<Trace, Key>, k: Key, t: Trace)
    requires Reflects(stored, held, keyOf) && forall l :: l in held && l != k ==> held[l] != t
    ensures Reflects(stored - {k}, held - {k}, keyOf - {t})
  {
  }

  class Monitor {
    const thash: array<seq<Trace>>
    var vacant: seq<Trace>
    var matches: nat
    var mismatches: nat
    /** What `blkiomon_account` was called with. */
    var pairs: seq<Pair>
    ghost var dropped: seq<Bit>
    ghost var held: map<Key, Trace>
    ghost var keyOf: map<Trace, Key>
    /** The events that are waiting. */
    ghost var stored: map<Key, Bit>

    ghost predicate HashOk()
      reads `held, `keyOf, thash, keyOf.Keys
    {
      && thash.Length == TRACE_HASH_SIZE && Hashed(thash[..], held, keyOf)
      && forall t :: t in keyOf ==> KeyOf(t.bit) == keyOf[t]
    }

    ghost predicate VacantOk()
      reads `vacant, `keyOf
    {
      && (forall j :: 0 <= j < |vacant| ==> vacant[j] !in keyOf)
      && (forall j, l :: 0 <= j < l < |vacant| ==> vacant[j] != vacant[l])
      && |vacant| <= MAX_VACANT
    }

    ghost predicate Valid()
      reads this, thash, keyOf.Keys
    {
      && HashOk() && VacantOk() && Reflects(stored, held, keyOf)
      && matches == |pairs| && mismatches == |dropped|
    }

    ghost function Abs(): Table
      reads `stored, `pairs, `dropped
    {
      Table(stored, pairs, dropped)
    }

    constructor ()
      ensures Valid() && Abs() == BLANK && fresh(thash) && vacant == [] && keyOf == map[]
    {
      thash := new seq<Trace>[TRACE_HASH_SIZE](_ => []);
      vacant, matches, mismatches, pairs, dropped, held, keyOf, stored := [], 0, 0, [], [], map[], map[], map[];
    }

    /** The loop of `blkiomon_fetch_trace`. */
    method Find(bit: Bit) returns (i: nat, j: nat)
      requires HashOk()
      ensures i == Bucket(KeyOf(bit)) && j <= |thash[i]|
      ensures KeyOf(bit) in held <==> j < |thash[i]|
      ensures j < |thash[i]| ==> thash[i][j] == held[KeyOf(bit)] && held[KeyOf(bit)] in keyOf
    {
      i := bit.sector % TRACE_HASH_SIZE;
      j := 0;
      assert Chain(thash[..][i], i, held, keyOf);
      while j < |thash[i]| && KeyOf(thash[i][j].bit) != KeyOf(bit)
        invariant j <= |thash[i]|
        invariant forall l :: 0 <= l < j ==> KeyOf(thash[i][l].bit) != KeyOf(bit)
      {
        j := j + 1;
      }
    }

    /** Takes structure `j` out of chain `i`. */
    method Unchain(i: nat, j: nat, ghost k: Key) returns (t: Trace)
      requires HashOk() && i < TRACE_HASH_SIZE && j < |thash[i]| && k in held && thash[i][j] == held[k]
      modifies `held, `keyOf, thash
      ensures HashOk() && t == old(thash[i][j]) && t in old(keyOf) && old(keyOf)[t] == k
      ensures keyOf == old(keyOf) - {t} && held == old(held) - {k}
    {
      t := thash[i][j];
      Unchained(thash[..], held, keyOf, i, j);
      thash[i] := thash[i][..j] + thash[i][j + 1..];
      held, keyOf := held - {k}, keyOf - {t};
    }

    /** Puts a structure at the head of its chain. */
    method Enchain(t: Trace, ghost k: Key)
      requires HashOk() && k == KeyOf(t.bit) && k !in held && t !in keyOf
      modifies `held, `keyOf, thash
      ensures HashOk() && held == old(held)[k := t] && keyOf == old(keyOf)[t := k]
    {
      var i := t.bit.sector % TRACE_HASH_SIZE;
      Chained(thash[..], held, keyOf, t, k);
      thash[i] := [t] + thash[i];
      held, keyOf := held[k := t], keyOf[t := k];
    }

    /** `blkiomon_fetch_trace` */
    method FetchTrace(bit: Bit) returns (t: Trace?)
      requires Valid()
      modifies `held, `keyOf, `stored, thash
      ensures Valid() && stored == old(stored) - {KeyOf(bit)} && KeyOf(bit) !in held
      ensures if KeyOf(bit) in old(stored)
        then t != null && t in old(keyOf) && t !in keyOf && t !in vacant && keyOf == old(keyOf) - {t}
             && t.bit == old(stored)[KeyOf(bit)]
        else t == null && keyOf == old(keyOf)
    {
      ghost var k := KeyOf(bit);
      var i, j := Find(bit);
      t := null;
      if j < |thash[i]| {
        t := Release(i, j, k);
      } else {
        NotThere(stored, k);
      }
    }

    /** Structure `j` of chain `i` no longer waits. */
    method Release(i: nat, j: nat, ghost k: Key) returns (t: Trace)
      requires Valid() && i < TRACE_HASH_SIZE && j < |thash[i]| && k in held && thash[i][j] == held[k]
      modifies `held, `keyOf, `stored, thash
      ensures Valid() && stored == old(stored) - {k} && k !in held && k in old(stored)
      ensures t in old(keyOf) && t !in vacant && keyOf == old(keyOf) - {t} && t.bit == old(stored)[k]
    {
      t := UnchainKey(i, j, k);
      Forget(k);
    }

    method UnchainKey(i: nat, j: nat, ghost k: Key) returns (t: Trace)
      requires Valid() && i < TRACE_HASH_SIZE && j < |thash[i]| && k in held && thash[i][j] == held[k]
      modifies `held, `keyOf, thash
      ensures HashOk() && VacantOk() && Reflects(stored - {k}, held, keyOf) && k !in held && k in stored
      ensures t in old(keyOf) && t !in vacant && keyOf == old(keyOf) - {t} && t.bit == stored[k]
    {
      ReflectsLess(stored, held, keyOf, k, thash[i][j]);
      t := Unchain(i, j, k);
    }

    ghost method Forget(k: Key)
      requires HashOk() && VacantOk() && Reflects(stored - {k}, held, keyOf)
      requires matches == |pairs| && mismatches == |dropped|
      modifies `stored
      ensures Valid() && stored == old(stored) - {k}
    {
      stored := stored - {k};
    }

    /** `blkiomon_store_trace` */
    method StoreTrace(t: Trace)
      requires Valid() && KeyOf(t.bit) !in held && t !in keyOf && t !in vacant
      modifies `held, `keyOf, `stored, thash
      ensures Valid() && stored == old(stored)[KeyOf(t.bit) := t.bit] && keyOf == old(keyOf)[t := KeyOf(t.bit)]
    {
      ghost var k := KeyOf(t.bit);
      ReflectsMore(stored, held, keyOf, t);
      Enchain(t, k);
      stored := stored[k := t.bit];
    }

    /** The structures on the vacant list. */
    ghost function Pool(): set<Trace>
      reads `vacant
    {
      set t | t in vacant
    }

    /** All structures there are when `cur` is the current one: `Valid` keeps the three kinds apart. */
    ghost function Live(cur: Trace): set<Trace>
      reads `keyOf, `vacant
    {
      keyOf.Keys + Pool() + {cur}
    }

    /** `blkiomon_alloc_trace`: a vacant structure if there is one. */
    method AllocTrace() returns (t: Trace)
      requires Valid()
      modifies `vacant, vacant
      ensures Valid() && Abs() == old(Abs()) && t.bit == ZERO && t !in vacant && t !in keyOf
      ensures if old(vacant) == [] then fresh(t) && vacant == [] else [t] + vacant == old(vacant)
      ensures Pool() + {t} == old(Pool()) + {t} && (t in old(Pool()) || fresh(t))
    {
      if vacant != [] {
        t := vacant[0];
        vacant := vacant[1..];
        t.bit := ZERO;
        assert old(vacant) == [t] + vacant;
      } else {
        t := new Trace();
      }
    }

    /** `blkiomon_free_trace`: what is too much is given back. */
    method FreeTrace(t: Trace)
      requires Valid() && t !in keyOf && t !in vacant
      modifies `vacant
      ensures Valid() && vacant == if |old(vacant)| < 256 then [t] + old(vacant) else old(vacant)
    {
      if |vacant| < MAX_VACANT {
        vacant := [t] + vacant;
      }
    }

    /** Nothing is waiting for this event: it waits itself, and the next one gets another structure. */
    method Await(t: Trace) returns (cur: Trace, ghost born: set<Trace>)
      requires Valid() && t !in keyOf && t !in vacant && KeyOf(t.bit) !in held
      modifies `held, `keyOf, `stored, `vacant, thash, vacant
      ensures Valid() && Abs() == old(Abs().(stored := stored[KeyOf(t.bit) := t.bit]))
      ensures cur !in keyOf && cur !in vacant && Live(cur) == old(Live(t)) + born && fresh(born)
    {
      ghost var keys, pool := keyOf.Keys, Pool();
      StoreTrace(t);
      assert keyOf.Keys == keys + {t};
      cur := AllocTrace();
      Alike(keys, t, pool, Pool(), cur);
      born := if cur in pool then {} else {cur};
    }

    /** The two events make a pair. */
    method Match(p: Pair, stored: Trace)
      requires Valid() && stored !in keyOf && stored !in vacant
      modifies `matches, `pairs, `vacant
      ensures Valid() && Abs() == old(Abs().(pairs := pairs + [p]))
      ensures vacant == if |old(vacant)| < MAX_VACANT then [stored] + old(vacant) else old(vacant)
    {
      FreeTrace(stored);
      matches, pairs := matches + 1, pairs + [p];
    }

    /** The two events make no pair: the older is given up. */
    method Mismatch(old_: Trace, young: Trace)
      requires Valid() && young !in keyOf && young !in vacant && KeyOf(young.bit) !in held
      modifies `held, `keyOf, `stored, `mismatches, `dropped, thash
      ensures Valid()
      ensures Abs() == old(Abs().(stored := stored[KeyOf(young.bit) := young.bit], dropped := dropped + [old_.bit]))
      ensures keyOf == old(keyOf)[young := KeyOf(old(young.bit))]
    {
      mismatches := mismatches + 1;
      dropped := dropped + [old_.bit];
      StoreTrace(young);
    }

    /** The rest of `blkiomon_do_trace` once `found` has been fetched. */
    method SettleTrace(t: Trace, found: Trace) returns (cur: Trace)
      requires Valid() && t !in keyOf && t !in vacant && found !in keyOf && found !in vacant
      requires KeyOf(t.bit) == KeyOf(found.bit) && KeyOf(t.bit) !in held && t != found
      modifies this, thash
      ensures Valid() && Abs() == old(Settle(Abs(), found.bit, t.bit)) && cur !in keyOf && cur !in vacant
      ensures Live(cur) <= old(Live(t)) + {found}
      ensures |old(vacant)| < MAX_VACANT ==> Live(cur) == old(Live(t)) + {found}
    {
      var old_, young := t, found;
      if found.bit.time < t.bit.time {
        old_, young := found, t;
      }
      if Issue(old_.bit) && Complete(young.bit) {
        Match(Pair(old_.bit, young.bit), found);
        cur := t;
      } else {
        Mismatch(old_, young);
        cur := old_;
      }
    }

    /**
      `blkiomon_do_trace`: the result is the structure for the next event.  None is given
      back while there is room on the vacant list.
     */
    method DoTrace(t: Trace) returns (cur: Trace, ghost born: set<Trace>)
      requires Valid() && t !in keyOf && t !in vacant
      modifies this, thash, vacant
      ensures Valid() && Abs() == old(Do(Abs(), t.bit)) && cur !in keyOf && cur !in vacant
      ensures fresh(born) && Live(cur) <= old(Live(t)) + born
      ensures |old(vacant)| < MAX_VACANT ==> old(Live(t)) <= Live(cur)
    {
      NotThere(stored, KeyOf(t.bit));
      ghost var live := Live(t);
      var found := FetchTrace(t.bit);
      if found == null {
        assert Live(t) == live;
        cur, born := Await(t);
      } else {
        assert Live(t) + {found} == live;
        cur := SettleTrace(t, found);
        born := {};
      }
    }

    /** The next event goes into the current structure. */
    method DoEvent(t: Trace, bit: Bit) returns (cur: Trace, ghost born: set<Trace>)
      requires Valid() && t !in keyOf && t !in vacant
      modifies this, thash, Live(t)
      ensures Valid() && cur !in keyOf && cur !in vacant && fresh(born) && Live(cur) <= old(Live(t)) + born
      ensures Abs() == if Relevant(bit) then Do(old(Abs()), bit) else old(Abs())
    {
      t.bit := bit;
      cur, born := t, {};
      if Relevant(bit) {
        cur, born := DoTrace(t);
      }
    }
  }

  lemma Alike(keys: set<Trace>, t: Trace, pool: set<Trace>, less: set<Trace>, cur: Trace)
    requires less + {cur} == pool + {cur}
    ensures keys + {t} + less + {cur} == keys + pool + {t} + {cur}
  {
    assert keys + {t} + (less + {cur}) == keys + {t} + (pool + {cur});
  }

  lemma NotThere(m: map<Key, Bit>, k: Key)
    ensures k !in m ==> m - {k} == m
  {
  }

  function Relevants(bits: seq<Bit>): seq<Bit> {
    if bits == [] then []
    else Relevants(bits[..|bits| - 1]) + (if Relevant(bits[|bits| - 1]) then [bits[|bits| - 1]] else [])
  }

  lemma RelevantNext(bits: seq<Bit>, i: nat)
    requires i < |bits|
    ensures DoAll(Relevants(bits[..i + 1]))
         == if Relevant(bits[i]) then Do(DoAll(Relevants(bits[..i])), bits[i]) else DoAll(Relevants(bits[..i]))
  {
    assert bits[..i + 1][..i] == bits[..i];
    var before := Relevants(bits[..i]);
    assert (before + [bits[i]])[..|before|] == before;
    assert before + [] == before;
  }

  /** The loop of `blkiomon_do_fifo`: the counts and the pairs are those of the table for all relevant events. */
  method DoFifo(bits: seq<Bit>) returns (matches: nat, mismatches: nat, pairs: seq<Pair>, ghost table: Table)
    ensures table == DoAll(Relevants(bits)) && pairs == table.pairs
    ensures matches == |pairs| && mismatches == |table.dropped|
    ensures |Relevants(bits)| == 2 * matches + mismatches + |table.stored|
    ensures forall i :: 0 <= i < |pairs| ==> Accountable(pairs[i])
  {
    var m := new Monitor();
    var t := m.AllocTrace();
    ghost var made := m.Live(t);
    for i := 0 to |bits|
      invariant fresh(m) && fresh(m.thash) && fresh(made) && m.Live(t) <= made
      invariant m.Valid() && t !in m.keyOf && t !in m.vacant
      invariant m.Abs() == DoAll(Relevants(bits[..i]))
    {
      RelevantNext(bits, i);
      ghost var born;
      t, born := m.DoEvent(t, bits[i]);
      made := made + born;
    }
    assert bits[..|bits|] == bits;
    EventsAddUp(Relevants(bits));
    TablePairsAreGood(Relevants(bits));
    table := m.Abs();
    matches, mismatches, pairs := m.matches, m.mismatches, m.pairs;
  }
}

/**
  The busy spans of devices as red-black trees of records, and the list of all records.  A
  span that is added is merged with those it touches.
 */
module PLive {
  import opened Common
  import opened RbShape
  import opened RbTree
  import opened Spans

  /** The spans of the nodes of a sequence; `entry` leads from a node to the record it is part of. */
  ghost function SpansOf(entry: map<Node, Span>, s: seq<Node>): (ss: seq<Span>)
    ensures |ss| == |s| && forall i :: 0 <= i < |s| && s[i] in entry ==> ss[i] == entry[s[i]]
  {
    seq(|s|, i requires 0 <= i < |s| => if s[i] in entry then entry[s[i]] else Span(0, 0))
  }

  lemma SpansOfParts(entry: map<Node, Span>, a: seq<Node>, b: seq<Node>)
    ensures SpansOf(entry, a + b) == SpansOf(entry, a) + SpansOf(entry, b)
  {
  }

  lemma SpansOfInserted(entry: map<Node, Span>, a: seq<Node>, n: Node, b: seq<Node>)
    requires n in entry
    ensures SpansOf(entry, a + ([n] + b)) == SpansOf(entry, a) + ([entry[n]] + SpansOf(entry, b))
  {
    SpansOfParts(entry, a, [n] + b);
    SpansOfParts(entry, [n], b);
    assert SpansOf(entry, [n]) == [entry[n]];
  }

  ghost predicate Listed(s: seq<Node>, e: map<Node, Span>) {
    forall n :: n in s ==> n in e
  }

  /** Records of other nodes do not matter. */
  lemma SpansOfSame(e: map<Node, Span>, f: map<Node, Span>, s: seq<Node>)
    requires forall n :: n in s ==> n in e && n in f && e[n] == f[n]
    ensures SpansOf(e, s) == SpansOf(f, s)
  {
    forall i | 0 <= i < |s| ensures SpansOf(e, s)[i] == SpansOf(f, s)[i] {
      assert s[i] in s;
    }
  }

  lemma CoversInserted(a: seq<Span>, s: Span, b: seq<Span>, x: real)
    ensures Covers(a + ([s] + b), x) <==> Covers(a + b, x) || Has(s, x)
  {
    var all := a + ([s] + b);
    if Covers(a + b, x) {
      var i :| 0 <= i < |a + b| && Has((a + b)[i], x);
      assert all[if i < |a| then i else i + 1] == (a + b)[i];
    }
    if Has(s, x) {
      assert all[|a|] == s;
    }
    if Covers(all, x) && !Has(s, x) {
      var i :| 0 <= i < |all| && Has(all[i], x);
      assert (a + b)[if i < |a| then i else i - 1] == all[i];
    }
  }

  lemma MergedWithout(a: seq<Span>, s: Span, b: seq<Span>)
    requires Merged(a + ([s] + b))
    ensures Merged(a + b)
  {
    var all := a + ([s] + b);
    forall i | 0 <= i < |a + b| ensures (a + b)[i].dt <= (a + b)[i].ct {
      assert (a + b)[i] == all[if i < |a| then i else i + 1];
    }
    forall i, j | 0 <= i < j < |a + b| ensures (a + b)[i].ct < (a + b)[j].dt {
      assert (a + b)[i] == all[if i < |a| then i else i + 1];
      assert (a + b)[j] == all[if j < |a| then j else j + 1];
    }
  }

  lemma MergedInserted(a: seq<Span>, s: Span, b: seq<Span>)
    requires Merged(a + b) && s.dt <= s.ct
    requires (forall i :: 0 <= i < |a| ==> a[i].ct < s.dt) && (forall i :: 0 <= i < |b| ==> s.ct < b[i].dt)
    ensures Merged(a + ([s] + b))
  {
    var all := a + ([s] + b);
    forall i | 0 <= i < |all| && i != |a| ensures all[i].dt <= all[i].ct {
      assert all[i] == (a + b)[if i < |a| then i else i - 1];
    }
    forall i, j | 0 <= i < j < |all| ensures all[i].ct < all[j].dt {
      if i != |a| && j != |a| {
        assert all[i] == (a + b)[if i < |a| then i else i - 1];
        assert all[j] == (a + b)[if j < |a| then j else j - 1];
      }
    }
  }

  function Hull(s: Span, t: Span): Span {
    Span(Min(s.dt, t.dt), Max(s.ct, t.ct))
  }

  /** `inside`: the cases in the order the program tries them. */
  predicate Inside(s: Span, dt: nat, ct: nat) {
    || s.dt <= dt <= s.ct
    || s.dt <= ct <= s.ct
    || (dt < s.dt && s.ct < ct)
  }

  /** It says whether two spans touch, and if so the hull it leads to is just their union. */
  lemma InsideIsTouching(s: Span, dt: nat, ct: nat)
    requires s.dt <= s.ct && dt <= ct
    ensures Inside(s, dt, ct) <==> exists x :: Has(s, x) && Has(Span(dt, ct), x)
    ensures Inside(s, dt, ct) ==>
      forall x :: Has(Hull(s, Span(dt, ct)), x) <==> Has(s, x) || Has(Span(dt, ct), x)
    ensures !Inside(s, dt, ct) ==> ct < s.dt || s.ct < dt
  {
    if Inside(s, dt, ct) {
      var x := if s.dt <= dt then dt as real else s.dt as real;
      assert Has(s, x) && Has(Span(dt, ct), x);
    }
  }

  /** The hull of two spans that touch, in the place of one of them, adds just the other. */
  lemma HullAdds(before: seq<Span>, s: Span, t: Span, less: seq<Span>, after: seq<Span>)
    requires s.dt <= s.ct && t.dt <= t.ct && Inside(s, t.dt, t.ct)
    requires Adds(less, s, before) && Adds(less, Hull(s, t), after)
    ensures Adds(before, t, after)
  {
    InsideIsTouching(s, t.dt, t.ct);
  }

  /** Everything in `before` ends before `dt`; everything in `after` starts after `ct`. */
  ghost predicate Between(entry: map<Node, Span>, before: seq<Node>, dt: nat, ct: nat, after: seq<Node>) {
    && (forall n :: n in before ==> n in entry && entry[n].ct < dt)
    && (forall n :: n in after ==> n in entry && ct < entry[n].dt)
  }

  lemma BothSides(entry: map<Node, Span>, a: seq<Node>, l: seq<Node>, n: Node, r: seq<Node>, b: seq<Node>)
    requires var s := (a + l) + ([n] + (r + b));
      Merged(SpansOf(entry, s)) && Listed(s, entry)
    ensures n in entry && entry[n].dt <= entry[n].ct
    ensures forall m :: m in l ==> m in entry && entry[m].ct < entry[n].dt
    ensures forall m :: m in r ==> m in entry && entry[n].ct < entry[m].dt
  {
    var s := (a + l) + ([n] + (r + b));
    var ss := SpansOf(entry, s);
    var k := |a| + |l|;
    assert s[k] == n && ss[k] == entry[n];
    forall m | m in l ensures m in entry && entry[m].ct < entry[n].dt {
      var i :| 0 <= i < |l| && l[i] == m;
      assert s[|a| + i] == m;
      assert ss[|a| + i] == entry[m];
    }
    forall m | m in r ensures m in entry && entry[n].ct < entry[m].dt {
      var i :| 0 <= i < |r| && r[i] == m;
      assert s[k + 1 + i] == m;
      assert ss[k + 1 + i] == entry[m];
    }
  }

  /** Descending to one side of the span that was looked at keeps the rest out of the way. */
  lemma DescendBetween(entry: map<Node, Span>, p: Path, t: Shape, dt: nat, ct: nat)
    requires t.Branch? && Merged(SpansOf(entry, Inorder(Plug(p, t)))) && Listed(Inorder(Plug(p, t)), entry)
    requires Between(entry, Before(p), dt, ct, After(p))
    ensures t.node in entry && entry[t.node].dt <= entry[t.node].ct
    ensures ct < entry[t.node].dt ==>
      Between(entry, Before(OnLeft(p, t.node, t.red, t.right)), dt, ct, After(OnLeft(p, t.node, t.red, t.right)))
    ensures entry[t.node].ct < dt ==>
      Between(entry, Before(OnRight(p, t.node, t.red, t.left)), dt, ct, After(OnRight(p, t.node, t.red, t.left)))
  {
    InorderOfPlug(p, t);
    RegroupAround(Before(p), Inorder(t.left), t.node, Inorder(t.right), After(p));
    BothSides(entry, Before(p), Inorder(t.left), t.node, Inorder(t.right), After(p));
  }

  /** What storing a span that touches none does to the list of spans. */
  lemma Stored(e: map<Node, Span>, a: seq<Node>, n: Node, b: seq<Node>, s: Span)
    requires n !in a && n !in b && s.dt <= s.ct && Merged(SpansOf(e, a + b)) && Between(e, a, s.dt, s.ct, b)
    ensures var ss := SpansOf(e[n := s], a + [n] + b);
      Merged(ss) && Adds(SpansOf(e, a + b), s, ss)
  {
    var f := e[n := s];
    assert a + [n] + b == a + ([n] + b);
    SpansOfParts(e, a, b);
    SpansOfSame(e, f, a);
    SpansOfSame(e, f, b);
    SpansOfInserted(f, a, n, b);
    forall i | 0 <= i < |a| ensures SpansOf(e, a)[i].ct < s.dt { assert a[i] in a; }
    forall i | 0 <= i < |b| ensures s.ct < SpansOf(e, b)[i].dt { assert b[i] in b; }
    MergedInserted(SpansOf(e, a), s, SpansOf(e, b));
    forall x ensures Covers(SpansOf(f, a + ([n] + b)), x) <==> Covers(SpansOf(e, a + b), x) || Has(s, x) {
      CoversInserted(SpansOf(e, a), s, SpansOf(e, b), x);
    }
  }

  lemma StoredAt(e: map<Node, Span>, t: Shape, p: Path, n: Node, s: Span)
    requires Plug(p, Leaf) == t && Nodes(t) == e.Keys && n !in e && s.dt <= s.ct
    requires Merged(SpansOf(e, Inorder(t))) && Between(e, Before(p), s.dt, s.ct, After(p))
    ensures var ss := SpansOf(e[n := s], Before(p) + [n] + After(p));
      Merged(ss) && Adds(SpansOf(e, Inorder(t)), s, ss)
  {
    InorderOfPlug(p, Leaf);
    assert Inorder(t) == Before(p) + After(p);
    Stored(e, Before(p), n, After(p), s);
  }

  lemma SplitAround(c: seq<Node>, n: Node) returns (a: seq<Node>, b: seq<Node>)
    requires n in c && forall i, j :: 0 <= i < j < |c| ==> c[i] != c[j]
    ensures c == a + ([n] + b) && Without(c, n) == a + b && n !in a && n !in b
  {
    var i :| 0 <= i < |c| && c[i] == n;
    a, b := c[..i], c[i + 1..];
    assert c == a + ([n] + b);
    WithoutAt(a, n, b);
  }

  /** What taking one record out does to the list of spans. */
  lemma Dropped(e: map<Node, Span>, c: seq<Node>, n: Node)
    requires n in c && Merged(SpansOf(e, c)) && Listed(c, e)
    requires forall i, j :: 0 <= i < j < |c| ==> c[i] != c[j]
    ensures e[n].dt <= e[n].ct
    ensures var ss := SpansOf(e - {n}, Without(c, n));
      Merged(ss) && Adds(ss, e[n], SpansOf(e, c))
  {
    var a, b := SplitAround(c, n);
    SpansOfInserted(e, a, n, b);
    SpansOfSame(e, e - {n}, a);
    SpansOfSame(e, e - {n}, b);
    SpansOfParts(e - {n}, a, b);
    MergedWithout(SpansOf(e, a), e[n], SpansOf(e, b));
    assert SpansOf(e, c)[|a|] == e[n];
    forall x ensures Covers(SpansOf(e, c), x) <==> Covers(SpansOf(e - {n}, a + b), x) || Has(e[n], x) {
      CoversInserted(SpansOf(e, a), e[n], SpansOf(e, b), x);
    }
  }

  /** Taking one element out of a set, and out of a bag that holds at least the set. */
  lemma OneLess(s: set<Node>, bag: multiset<Node>, less: multiset<Node>, n: Node)
    requires n in s && multiset(s) <= bag
    ensures n in bag
    ensures bag == less + multiset{n} ==> less + multiset(s) == bag + multiset(s - {n}) && multiset(s - {n}) <= less
  {
    assert multiset(s)[n] == 1 && multiset(s)[n] <= bag[n];
    assert multiset(s) == multiset(s - {n}) + multiset{n};
    if bag == less + multiset{n} {
      forall m ensures multiset(s - {n})[m] <= less[m] {
        assert multiset(s)[m] <= bag[m];
      }
    }
  }

  lemma OneMore(s: set<Node>, list: seq<Node>, n: Node)
    requires n !in s
    ensures multiset(list + [n]) + multiset(s) == multiset(list) + multiset(s + {n})
  {
    assert multiset(list + [n]) == multiset(list) + multiset{n};
  }

  lemma Chained(l0: multiset<Node>, l1: multiset<Node>, l2: multiset<Node>,
                s0: multiset<Node>, s1: multiset<Node>, s2: multiset<Node>)
    requires l1 + s0 == l0 + s1 && l2 + s1 == l1 + s2
    ensures l2 + s0 == l0 + s2
  {
    forall n ensures (l2 + s0)[n] == (l0 + s2)[n] {
      assert (l1 + s0)[n] == (l0 + s1)[n] && (l2 + s1)[n] == (l1 + s2)[n];
    }
  }

  // ---------- many trees ----------

  ghost predicate InSome(sets: seq<set<Node>>, n: Node) {
    exists i :: 0 <= i < |sets| && n in sets[i]
  }

  /** No node is in two sets, and the bag holds just the nodes of all sets, each once. */
  ghost predicate Owned(sets: seq<set<Node>>, bag: multiset<Node>) {
    && (forall i, j :: 0 <= i < j < |sets| ==> sets[i] !! sets[j])
    && (forall i, n :: 0 <= i < |sets| && n in sets[i] ==> n in bag)
    && forall n :: n in bag ==> bag[n] == 1 && InSome(sets, n)
  }

  lemma OneIsIn(sets: seq<set<Node>>, bag: multiset<Node>, k: nat)
    requires Owned(sets, bag) && k < |sets|
    ensures multiset(sets[k]) <= bag
  {
    forall n ensures multiset(sets[k])[n] <= bag[n] {
      assert n in sets[k] ==> InSome(sets, n);
    }
  }

  lemma ExchangedAt(sets: seq<set<Node>>, bag: multiset<Node>, k: nat, now: set<Node>, less: multiset<Node>, n: Node)
    requires Owned(sets, bag) && k < |sets| && less + multiset(sets[k]) == bag + multiset(now)
    requires forall i :: 0 <= i < |sets| && i != k ==> sets[i] !! now
    ensures less[n] == if InSome(sets[k := now], n) then 1 else 0
  {
    var next := sets[k := now];
    assert (less + multiset(sets[k]))[n] == (bag + multiset(now))[n];
    if n in now {
      assert n in next[k];
      if n in bag {
        var i :| 0 <= i < |sets| && n in sets[i];
        assert i == k;
      }
    } else {
      if n in bag {
        var i :| 0 <= i < |sets| && n in sets[i];
        assert n in next[i] || i == k;
      }
      if InSome(next, n) {
        var i :| 0 <= i < |next| && n in next[i];
        assert n in sets[i];
      }
    }
  }

  /** One of the sets changes, and the bag as much. */
  lemma Exchanged(sets: seq<set<Node>>, bag: multiset<Node>, k: nat, now: set<Node>, less: multiset<Node>)
    requires Owned(sets, bag) && k < |sets| && less + multiset(sets[k]) == bag + multiset(now)
    requires forall i :: 0 <= i < |sets| && i != k ==> sets[i] !! now
    ensures Owned(sets[k := now], less)
  {
    var next := sets[k := now];
    forall i, n | 0 <= i < |next| && n in next[i] ensures n in less {
      ExchangedAt(sets, bag, k, now, less, n);
    }
    forall n | n in less ensures less[n] == 1 && InSome(next, n) {
      ExchangedAt(sets, bag, k, now, less, n);
    }
  }

  lemma OneSetMore(sets: seq<set<Node>>, bag: multiset<Node>)
    requires Owned(sets, bag)
    ensures Owned(sets + [{}], bag)
  {
    var more := sets + [{}];
    forall n | n in bag ensures InSome(more, n) {
      var i :| 0 <= i < |sets| && n in sets[i];
      assert n in more[i];
    }
  }

  /** `all_p_lives`: every span record of every tree, kept for the final clean-up. */
  class LiveList {
    var list: seq<Node>

    constructor ()
      ensures list == []
    {
      list := [];
    }

    method Del(n: Node)
      requires n in list
      modifies this
      ensures multiset(old(list)) == multiset(list) + multiset{n}
    {
      WithoutCounts(list, n);
      list := Without(list, n);
    }

    method AddTail(n: Node)
      modifies this
      ensures list == old(list) + [n]
    {
      list := list + [n];
    }
  }

  /** The tree of the busy spans of one device, or of all of them. */
  class LiveTree {
    const root: Root
    var entry: map<Node, Span>

    ghost function Spans(): seq<Span>
      reads this, root
    {
      SpansOf(entry, root.Contents())
    }

    ghost predicate Valid()
      reads this, root, root.nodes
    {
      root.Valid() && entry.Keys == root.nodes && Merged(Spans())
    }

    /** The tree is made of `nodes` and covers what is in `adds`. */
    ghost predicate Holds(nodes: set<Node>, adds: seq<Span>)
      reads this, root, root.nodes
    {
      root.nodes == nodes && Valid() && SameCover(Spans(), adds)
    }

    constructor ()
      ensures Valid() && Spans() == [] && root.nodes == {} && fresh(root)
    {
      root := new Root();
      entry := map[];
    }

    lemma Known()
      requires Valid()
      ensures Listed(root.Contents(), entry)
    {
      forall n | n in root.Contents() ensures n in entry {
        InorderNodes(root.shape, n);
      }
    }

    method LinkNew(parent: Node?, link: Link, ghost p: Path) returns (n: Node)
      requires root.Valid() && root.At(p, Leaf) && Plug(p, Leaf) == root.shape
      requires parent == ParentOf(p) && link == LinkOf(p)
      modifies root, root.nodes
      ensures root.Valid() && fresh(n) && root.nodes == old(root.nodes) + {n}
      ensures root.Contents() == Before(p) + [n] + After(p)
    {
      n := new Node();
      root.Insert(n, parent, link, p);
    }

    /** A span that touches none is stored where the search ended. */
    method Store(dt: nat, ct: nat, parent: Node?, link: Link, ghost p: Path) returns (n: Node)
      requires Valid() && dt <= ct
      requires root.At(p, Leaf) && Plug(p, Leaf) == root.shape && parent == ParentOf(p) && link == LinkOf(p)
      requires Between(entry, Before(p), dt, ct, After(p))
      modifies this, root, root.nodes
      ensures Valid() && fresh(n) && root.nodes == old(root.nodes) + {n}
      ensures Adds(old(Spans()), Span(dt, ct), Spans())
    {
      ghost var t := root.shape;
      n := LinkNew(parent, link, p);
      StoredAt(entry, t, p, n, Span(dt, ct));
      entry := entry[n := Span(dt, ct)];
    }

    /** A record is taken out of the tree. */
    method Drop(n: Node) returns (s: Span)
      requires Valid() && n in root.nodes
      modifies this, root, root.nodes
      ensures Valid() && root.nodes == old(root.nodes) - {n} && s == old(entry)[n] && s.dt <= s.ct
      ensures Adds(Spans(), s, old(Spans()))
    {
      s := entry[n];
      InorderDistinct(root.shape);
      Known();
      InorderNodes(root.shape, n);
      Dropped(entry, root.Contents(), n);
      root.Erase(n);
      entry := entry - {n};
    }

    /** Where the search for the place of a span stands. */
    ghost predicate Searching(dt: nat, ct: nat, p: Path, t: Shape, parent: Node?, link: Link)
      reads this, root, root.nodes
    {
      && root.At(p, t) && Plug(p, t) == root.shape && parent == ParentOf(p) && link == LinkOf(p)
      && Between(entry, Before(p), dt, ct, After(p))
    }

    /** One step down, past a span that is not touched. */
    method Descend(cur: Node, dt: nat, ct: nat, ghost p: Path, ghost t: Shape)
      returns (next: Node?, link: Link, ghost q: Path, ghost u: Shape)
      requires Valid() && dt <= ct && Between(entry, Before(p), dt, ct, After(p))
      requires root.At(p, t) && Plug(p, t) == root.shape && t.Branch? && t.node == cur && cur in entry
      requires !Inside(entry[cur], dt, ct)
      ensures Searching(dt, ct, q, u, cur, link) && next == Top(u) && u < t
    {
      root.Look(p, t);
      Known();
      DescendBetween(entry, p, t, dt, ct);
      InsideIsTouching(entry[cur], dt, ct);
      if ct < entry[cur].dt {
        next, link := cur.left, LeftLink(cur);
        q, u := OnLeft(p, t.node, t.red, t.right), t.left;
      } else {
        next, link := cur.right, RightLink(cur);
        q, u := OnRight(p, t.node, t.red, t.left), t.right;
      }
      root.StepDown(q, u);
    }

    /** Down the tree until a span is touched or the search falls off. */
    method Search(dt: nat, ct: nat) returns (cur: Node?, parent: Node?, link: Link, ghost p: Path, ghost t: Shape)
      requires Valid() && dt <= ct
      ensures Searching(dt, ct, p, t, parent, link) && cur == Top(t)
      ensures cur != null ==> cur in entry && Inside(entry[cur], dt, ct)
    {
      p, t := AtRoot, root.shape;
      parent, link, cur := null, RootLink, root.node;
      root.Look(p, t);
      while cur != null
        invariant Searching(dt, ct, p, t, parent, link) && cur == Top(t)
        decreases t
      {
        assert cur in entry by {
          NodesOfPlug(p, t);
        }
        if Inside(entry[cur], dt, ct) {
          return;
        }
        parent := cur;
        cur, link, p, t := Descend(cur, dt, ct, p, t);
      }
    }

    method TakeOut(cur: Node, all: LiveList) returns (s: Span)
      requires Valid() && cur in root.nodes && multiset(root.nodes) <= multiset(all.list)
      modifies this, root, root.nodes, all
      ensures Valid() && root.nodes == old(root.nodes) - {cur} && s == old(entry)[cur] && s.dt <= s.ct
      ensures Adds(Spans(), s, old(Spans()))
      ensures multiset(all.list) + multiset(old(root.nodes)) == multiset(old(all.list)) + multiset(root.nodes)
      ensures multiset(root.nodes) <= multiset(all.list)
    {
      ghost var k, bag := root.nodes, multiset(all.list);
      OneLess(k, bag, bag, cur);
      all.Del(cur);
      OneLess(k, bag, multiset(all.list), cur);
      s := Drop(cur);
    }

    method Keep(dt: nat, ct: nat, parent: Node?, link: Link, all: LiveList, ghost p: Path) returns (n: Node)
      requires Valid() && dt <= ct
      requires root.At(p, Leaf) && Plug(p, Leaf) == root.shape && parent == ParentOf(p) && link == LinkOf(p)
      requires Between(entry, Before(p), dt, ct, After(p))
      modifies this, root, root.nodes, all
      ensures Valid() && fresh(n) && root.nodes <= old(root.nodes) + {n}
      ensures Adds(old(Spans()), Span(dt, ct), Spans())
      ensures multiset(all.list) + multiset(old(root.nodes)) == multiset(old(all.list)) + multiset(root.nodes)
    {
      n := Store(dt, ct, parent, link, p);
      OneMore(old(root.nodes), all.list, n);
      all.AddTail(n);
    }

    /** `__p_live_add`: a span that is touched is taken out, and the hull of the two is added instead. */
    method Add(dt: nat, ct: nat, all: LiveList) returns (n: Node)
      requires Valid() && dt <= ct
      requires multiset(root.nodes) <= multiset(all.list)
      modifies this, root, root.nodes, all
      ensures Valid() && fresh(n) && root.nodes <= old(root.nodes) + {n}
      ensures Adds(old(Spans()), Span(dt, ct), Spans())
      ensures multiset(all.list) + multiset(old(root.nodes)) == multiset(old(all.list)) + multiset(root.nodes)
      decreases |root.nodes|
    {
      var cur, parent, link;
      ghost var p, t;
      cur, parent, link, p, t := Search(dt, ct);
      if cur != null {
        ghost var l0, k0 := multiset(all.list), multiset(root.nodes);
        var s := TakeOut(cur, all);
        ghost var l1, k1 := multiset(all.list), root.nodes;
        ghost var ss := Spans();
        var h := Hull(s, Span(dt, ct));
        n := Add(h.dt, h.ct, all);
        HullAdds(old(Spans()), s, Span(dt, ct), ss, Spans());
        Chained(l0, l1, multiset(all.list), k0, multiset(k1), multiset(root.nodes));
      } else {
        n := Keep(dt, ct, parent, link, all, p);
      }
    }

    /** `p_live_visit`: the left subtree, the node, the right subtree. */
    method Visit(n: Node, info: LiveInfo, ghost p: Path, ghost t: Shape)
      requires root.At(p, t) && t.Branch? && t.node == n && Nodes(t) <= entry.Keys
      modifies info
      ensures info.Added(old(info.nlives), old(info.totLive), old(info.tEnd), SpansOf(entry, Inorder(t)))
      ensures old(info.tStart) == 0 ==> info.tStart == 0
      decreases t, 0
    {
      root.Look(p, t);
      Visited(entry, t, info.tEnd);
      VisitKid(n.left, info, OnLeft(p, n, t.red, t.right), t.left, t, p);
      info.Account(entry[n]);
      VisitKid(n.right, info, OnRight(p, n, t.red, t.left), t.right, t, p);
    }

    /** The visit of a subtree that may be missing. */
    method VisitKid(n: Node?, info: LiveInfo, ghost p: Path, ghost t: Shape, ghost above: Shape, ghost up: Path)
      requires root.At(up, above) && !p.AtRoot? && up == p.up && above == Raised(p, t)
      requires n == Top(t) && Nodes(t) <= entry.Keys
      modifies info
      ensures info.Added(old(info.nlives), old(info.totLive), old(info.tEnd), SpansOf(entry, Inorder(t)))
      ensures old(info.tStart) == 0 ==> info.tStart == 0
      decreases t, 1
    {
      if n != null {
        root.StepDown(p, t);
        Visit(n, info, p, t);
      }
    }

    /** The whole-number part of `p_live_get`. */
    method Get() returns (info: LiveInfo)
      requires Valid()
      ensures info.nlives == |Spans()|
      ensures info.totLive == TotalLength(Spans())
      ensures info.tStart == 0
      ensures info.tEnd == if Spans() == [] then 0 else Spans()[|Spans()| - 1].ct
    {
      info := new LiveInfo();
      root.Look(AtRoot, root.shape);
      if root.node != null {
        Visit(root.node, info, AtRoot, root.shape);
      }
      LatestIsLast(0, Spans());
    }
  }

  /** The accumulator of `p_live_get`.  Both time stamps start out as the unsigned number 0. */
  class LiveInfo {
    var nlives: nat
    var totLive: int
    var tStart: nat
    var tEnd: nat

    constructor ()
      ensures nlives == 0 && totLive == 0 && tStart == 0 && tEnd == 0
    {
      nlives, totLive, tStart, tEnd := 0, 0, 0, 0;
    }

    /** The sums, once the spans `ss` have been accounted for. */
    ghost predicate Added(nlives0: nat, totLive0: int, tEnd0: nat, ss: seq<Span>)
      reads this
    {
      && nlives == nlives0 + |ss|
      && totLive == totLive0 + TotalLength(ss)
      && tEnd == LatestEnd(tEnd0, ss)
    }

    method Account(s: Span)
      modifies this
      ensures nlives == old(nlives) + 1 && totLive == old(totLive) + (s.ct - s.dt)
      ensures tEnd == Max(old(tEnd), s.ct) && tStart == Min(s.dt, old(tStart))
    {
      nlives := nlives + 1;
      totLive := totLive + (s.ct - s.dt);
      if s.dt < tStart {
        tStart := s.dt;
      }
      if s.ct > tEnd {
        tEnd := s.ct;
      }
    }
  }

  ghost function LatestEnd(from: nat, ss: seq<Span>): nat
    decreases ss
  {
    if ss == [] then from else LatestEnd(Max(from, ss[0].ct), ss[1..])
  }

  lemma {:induction false} SumParts(a: seq<Span>, b: seq<Span>, from: nat)
    ensures TotalLength(a + b) == TotalLength(a) + TotalLength(b)
    ensures LatestEnd(from, a + b) == LatestEnd(LatestEnd(from, a), b)
    decreases a
  {
    if a == [] {
      assert a + b == b;
    } else {
      assert (a + b)[1..] == a[1..] + b;
      SumParts(a[1..], b, Max(from, a[0].ct));
    }
  }

  lemma {:induction false} LatestIsLast(from: nat, ss: seq<Span>)
    requires Merged(ss) && (ss != [] ==> from <= ss[0].ct)
    ensures LatestEnd(from, ss) == if ss == [] then from else ss[|ss| - 1].ct
    decreases ss
  {
    if ss != [] {
      assert |ss| > 1 ==> ss[1..][|ss| - 2] == ss[|ss| - 1];
      LatestIsLast(ss[0].ct, ss[1..]);
    }
  }

  /** The sums over a subtree, from those over its three parts. */
  lemma Visited(e: map<Node, Span>, t: Shape, from: nat)
    requires t.Branch? && t.node in e
    ensures var l, r, ss := SpansOf(e, Inorder(t.left)), SpansOf(e, Inorder(t.right)), SpansOf(e, Inorder(t));
      && |ss| == |l| + 1 + |r|
      && TotalLength(ss) == TotalLength(l) + (e[t.node].ct - e[t.node].dt) + TotalLength(r)
      && LatestEnd(from, ss) == LatestEnd(Max(LatestEnd(from, l), e[t.node].ct), r)
  {
    var l, r := Inorder(t.left), Inorder(t.right);
    assert l + [t.node] + r == l + ([t.node] + r);
    SpansOfInserted(e, l, t.node, r);
    SumParts(SpansOf(e, l), [e[t.node]] + SpansOf(e, r), from);
    SumParts([e[t.node]], SpansOf(e, r), LatestEnd(from, SpansOf(e, l)));
    assert [e[t.node]][1..] == [];
  }

  // ---------- whole runs ----------

  /** All trees: one for each device, and before them `p_live_root`, which is for all of them. */
  class Lives {
    const all: LiveList
    var trees: seq<LiveTree>
    ghost var sets: seq<set<Node>>
    ghost var Repr: set<object>
    /** What was added to each tree. */
    ghost var log: seq<seq<Span>>

    ghost predicate Separate()
      reads this, Repr
    {
      && (forall i :: 0 <= i < |trees| ==> trees[i] in Repr && trees[i].root in Repr)
      && forall i, j :: 0 <= i < j < |trees| ==> trees[i] != trees[j] && trees[i].root != trees[j].root
    }

    ghost predicate Valid()
      reads this, Repr
    {
      && this in Repr && all in Repr && 1 <= |trees| == |sets| == |log|
      && Separate() && Owned(sets, multiset(all.list))
      && forall i :: 0 <= i < |trees| ==>
           trees[i].root.nodes <= Repr && trees[i].Holds(sets[i], log[i])
    }

    constructor ()
      ensures Valid() && fresh(Repr) && log == [[]]
    {
      all := new LiveList();
      var sys := new LiveTree();
      trees, sets, log := [sys], [{}], [[]];
      Repr := {this, all, sys, sys.root};
      new;
      assert sys.Holds({}, []);
    }

    /** `p_live_alloc`: the tree of one more device. */
    method Alloc() returns (dev: nat)
      requires Valid()
      modifies this
      ensures Valid() && fresh(Repr - old(Repr)) && log == old(log) + [[]] && dev == |old(log)|
    {
      var tree := new LiveTree();
      dev := |trees|;
      Enlist(tree);
    }

    method Enlist(tree: LiveTree)
      requires Valid() && tree.Holds({}, []) && tree !in trees && tree.root !in Repr
      modifies `trees, `sets, `log, `Repr
      ensures Valid() && Repr == old(Repr) + {tree, tree.root} && log == old(log) + [[]]
    {
      OneSetMore(sets, multiset(all.list));
      trees, sets, log, Repr := trees + [tree], sets + [{}], log + [[]], Repr + {tree, tree.root};
    }

    method Grow(k: nat, dt: nat, ct: nat) returns (ghost now: set<Node>)
      requires Valid() && k < |log| && dt <= ct
      modifies trees[k], trees[k].root, sets[k], all
      ensures fresh(now - sets[k]) && trees[k].Holds(now, log[k] + [Span(dt, ct)])
      ensures Owned(sets[k := now], multiset(all.list))
      ensures forall i :: 0 <= i < |trees| && i != k ==> trees[i].Holds(sets[i], log[i])
    {
      ghost var bag, before := multiset(all.list), trees[k].Spans();
      assert trees[k].Holds(sets[k], log[k]);
      OneIsIn(sets, bag, k);
      var _ := trees[k].Add(dt, ct, all);
      now := trees[k].root.nodes;
      Exchanged(sets, bag, k, now, multiset(all.list));
      LogGrows(before, trees[k].Spans(), log[k], Span(dt, ct));
    }

    method AddTo(k: nat, dt: nat, ct: nat)
      requires Valid() && k < |log| && dt <= ct
      modifies Repr
      ensures Valid() && fresh(Repr - old(Repr)) && trees == old(trees)
      ensures log == old(log)[k := old(log)[k] + [Span(dt, ct)]]
    {
      ghost var now := Grow(k, dt, ct);
      Note(k, now, Span(dt, ct));
    }

    ghost method Note(k: nat, now: set<Node>, s: Span)
      requires this in Repr && all in Repr && Separate() && k < |trees| == |sets| == |log|
      requires trees[k].Holds(now, log[k] + [s]) && Owned(sets[k := now], multiset(all.list))
      requires forall i :: 0 <= i < |trees| && i != k ==> sets[i] <= Repr && trees[i].Holds(sets[i], log[i])
      modifies `sets, `log, `Repr
      ensures Valid() && Repr == old(Repr) + now && log == old(log)[k := old(log)[k] + [s]]
    {
      sets, log, Repr := sets[k := now], log[k := log[k] + [s]], Repr + now;
    }

    /** `p_live_add`: the span goes to the device's tree and to the tree of all devices. */
    method Add(dev: nat, dt: nat, ct: nat)
      requires Valid() && 0 < dev < |log| && dt <= ct
      modifies Repr
      ensures Valid() && fresh(Repr - old(Repr)) && trees == old(trees)
      ensures log == old(log)[dev := old(log)[dev] + [Span(dt, ct)]][0 := old(log)[0] + [Span(dt, ct)]]
    {
      AddTo(dev, dt, ct);
      AddTo(0, dt, ct);
    }
  }

  lemma LogGrows(before: seq<Span>, after: seq<Span>, adds: seq<Span>, s: Span)
    requires SameCover(before, adds) && Adds(before, s, after)
    ensures SameCover(after, adds + [s])
  {
    assert adds + [s] == adds + ([s] + []) && adds + [] == adds;
    forall x ensures Covers(after, x) <==> Covers(adds + [s], x) {
      CoversInserted(adds, s, [], x);
      assert Covers(before, x) <==> Covers(adds, x);
    }
  }

  /** An I/O that was completed on a device. */
  datatype Completed = Completed(dev: nat, span: Span)

  function AllSpans(adds: seq<Completed>): seq<Span> {
    seq(|adds|, i requires 0 <= i < |adds| => adds[i].span)
  }

  function SpansOn(adds: seq<Completed>, dev: nat): seq<Span> {
    if adds == [] then []
    else
      var last := adds[|adds| - 1];
      SpansOn(adds[..|adds| - 1], dev) + if last.dev == dev then [last.span] else []
  }

  /** What a run adds to the trees: tree 0 has everything, and tree `dev + 1` what is on that device. */
  function Logs(ndevs: nat, adds: seq<Completed>): seq<seq<Span>> {
    [AllSpans(adds)] + seq(ndevs, d requires 0 <= d => SpansOn(adds, d))
  }

  lemma LogsGrow(ndevs: nat, adds: seq<Completed>, k: nat)
    requires k < |adds| && adds[k].dev < ndevs
    ensures var l, s, d := Logs(ndevs, adds[..k]), adds[k].span, adds[k].dev + 1;
      Logs(ndevs, adds[..k + 1]) == l[d := l[d] + [s]][0 := l[0] + [s]]
  {
    var front := adds[..k + 1];
    assert front[..|front| - 1] == adds[..k] && front[|front| - 1] == adds[k];
    var l, s, d := Logs(ndevs, adds[..k]), adds[k].span, adds[k].dev + 1;
    assert AllSpans(front) == AllSpans(adds[..k]) + [s];
    forall i | 0 <= i < ndevs ensures SpansOn(front, i) == if i + 1 == d then l[d] + [s] else l[i + 1] {
      assert l[i + 1] == SpansOn(adds[..k], i) && SpansOn(adds[..k], i) + [] == SpansOn(adds[..k], i);
    }
    assert Logs(ndevs, front) == l[d := l[d] + [s]][0 := l[0] + [s]];
  }

  lemma LogsOfNone(ndevs: nat)
    ensures Logs(ndevs + 1, []) == Logs(ndevs, []) + [[]]
    ensures Logs(0, []) == [[]]
  {
    assert AllSpans([]) == [];
  }

  method NewLives(ndevs: nat) returns (lives: Lives)
    ensures lives.Valid() && fresh(lives.Repr) && lives.log == Logs(ndevs, [])
  {
    lives := new Lives();
    LogsOfNone(0);
    for d := 0 to ndevs
      invariant lives.Valid() && fresh(lives.Repr) && lives.log == Logs(d, [])
    {
      var _ := lives.Alloc();
      LogsOfNone(d);
    }
  }

  method AddNext(lives: Lives, ndevs: nat, adds: seq<Completed>, k: nat)
    requires k < |adds| && adds[k].dev < ndevs && adds[k].span.dt <= adds[k].span.ct
    requires lives.Valid() && lives.log == Logs(ndevs, adds[..k])
    modifies lives.Repr
    ensures lives.Valid() && fresh(lives.Repr - old(lives.Repr)) && lives.log == Logs(ndevs, adds[..k + 1])
  {
    LogsGrow(ndevs, adds, k);
    lives.Add(adds[k].dev + 1, adds[k].span.dt, adds[k].span.ct);
  }

  lemma Covered(lives: Lives, ndevs: nat, adds: seq<Completed>)
    requires lives.Valid() && lives.log == Logs(ndevs, adds)
    ensures |lives.trees| == ndevs + 1 && SameCover(lives.trees[0].Spans(), AllSpans(adds))
    ensures forall d :: 0 <= d < ndevs ==> SameCover(lives.trees[d + 1].Spans(), SpansOn(adds, d))
  {
    assert lives.log[0] == AllSpans(adds);
    forall d | 0 <= d < ndevs ensures SameCover(lives.trees[d + 1].Spans(), SpansOn(adds, d)) {
      assert lives.log[d + 1] == SpansOn(adds, d);
    }
  }

  /** The spans of a run, one after the other, starting with empty trees. */
  method AddAll(ndevs: nat, adds: seq<Completed>) returns (lives: Lives)
    requires forall i :: 0 <= i < |adds| ==> adds[i].dev < ndevs && adds[i].span.dt <= adds[i].span.ct
    ensures lives.Valid() && |lives.trees| == ndevs + 1
    ensures SameCover(lives.trees[0].Spans(), AllSpans(adds))
    ensures forall d :: 0 <= d < ndevs ==> SameCover(lives.trees[d + 1].Spans(), SpansOn(adds, d))
  {
    lives := NewLives(ndevs);
    assert adds[..0] == [];
    for k := 0 to |adds|
      invariant lives.Valid() && fresh(lives.Repr) && lives.log == Logs(ndevs, adds[..k])
    {
      AddNext(lives, ndevs, adds, k);
    }
    assert adds[..|adds|] == adds;
    Covered(lives, ndevs, adds);
  }

  /** The same spans in whatever order, and however often, lead to one and the same list. */
  lemma OrderIndependent(adds: seq<Span>, again: seq<Span>, ss: seq<Span>, tt: seq<Span>)
    requires forall s :: s in adds <==> s in again
    requires Merged(ss) && SameCover(ss, adds) && Merged(tt) && SameCover(tt, again)
    ensures ss == tt
  {
    forall x ensures Covers(ss, x) <==> Covers(tt, x) {
      CoversMembers(adds, again, x);
      CoversMembers(again, adds, x);
    }
    MergedIsCanonical(ss, tt);
  }

  lemma CoversMembers(a: seq<Span>, b: seq<Span>, x: real)
    requires forall s :: s in a ==> s in b
    ensures Covers(a, x) ==> Covers(b, x)
  {
    if Covers(a, x) {
      var i :| 0 <= i < |a| && Has(a[i], x);
      assert a[i] in b;
    }
  }
}

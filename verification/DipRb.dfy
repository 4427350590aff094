/**
  The per-device trees of I/Os in btt, keyed by first sector, and the two pruned searches
  over them.  A key occurs once; how the extents overlap is up to the traced workload.
 */
module DipRb {
  import opened Common
  import opened RbShape
  import opened RbTree

  /** The sectors lo, ..., hi - 1 of one I/O. */
  datatype Extent = Extent(lo: nat, hi: nat)

  ghost predicate Listed(s: seq<Node>, e: map<Node, Extent>) {
    forall n :: n in s ==> n in e
  }

  /** First sectors ascend along the sequence. */
  ghost predicate Ascending(e: map<Node, Extent>, s: seq<Node>) {
    && Listed(s, e)
    && forall i, j :: 0 <= i < j < |s| ==> s[i] in e && s[j] in e && e[s[i]].lo < e[s[j]].lo
  }

  ghost predicate AllBelow(e: map<Node, Extent>, s: seq<Node>, lo: nat) {
    forall n :: n in s ==> n in e && e[n].lo < lo
  }

  ghost predicate AllAbove(e: map<Node, Extent>, s: seq<Node>, lo: nat) {
    forall n :: n in s ==> n in e && lo < e[n].lo
  }

  lemma AscendingParts(e: map<Node, Extent>, a: seq<Node>, n: Node, b: seq<Node>)
    requires Ascending(e, a + ([n] + b))
    ensures n in e && Ascending(e, a) && Ascending(e, b) && AllBelow(e, a, e[n].lo) && AllAbove(e, b, e[n].lo)
  {
    var s := a + ([n] + b);
    assert s[|a|] == n;
    assert n in s;
    forall m | m in a ensures m in e && e[m].lo < e[n].lo {
      var i :| 0 <= i < |a| && a[i] == m;
      assert s[i] == m;
    }
    forall m | m in b ensures m in e && e[n].lo < e[m].lo {
      var i :| 0 <= i < |b| && b[i] == m;
      assert s[|a| + 1 + i] == m;
    }
    forall i, j | 0 <= i < j < |a| ensures a[i] in e && a[j] in e && e[a[i]].lo < e[a[j]].lo {
      assert s[i] == a[i] && s[j] == a[j];
    }
    forall i, j | 0 <= i < j < |b| ensures b[i] in e && b[j] in e && e[b[i]].lo < e[b[j]].lo {
      assert s[|a| + 1 + i] == b[i] && s[|a| + 1 + j] == b[j];
    }
  }

  lemma AscendingInserted(e: map<Node, Extent>, a: seq<Node>, n: Node, x: Extent, b: seq<Node>)
    requires Ascending(e, a + b) && n !in a && n !in b && AllBelow(e, a, x.lo) && AllAbove(e, b, x.lo)
    ensures Ascending(e[n := x], a + [n] + b)
  {
    var f, s := e[n := x], a + [n] + b;
    forall i, j | 0 <= i < j < |s| ensures s[i] in f && s[j] in f && f[s[i]].lo < f[s[j]].lo {
      var i', j' := if i < |a| then i else i - 1, if j < |a| then j else j - 1;
      if i != |a| && j != |a| {
        assert s[i] == (a + b)[i'] && s[j] == (a + b)[j'];
        assert s[i] in a + b && s[j] in a + b;
      } else if i == |a| {
        assert s[j] == b[j - |a| - 1] && s[j] in b;
      } else {
        assert s[i] == a[i] && s[i] in a;
      }
    }
  }

  // ---------- the searches, read off the shape ----------

  /** `rb_find_sec`. */
  ghost function Found(e: map<Node, Extent>, t: Shape, sec: nat): Node?
    requires Nodes(t) <= e.Keys
  {
    if t.Leaf? then null
    else if sec < e[t.node].lo then Found(e, t.left, sec)
    else if sec >= e[t.node].hi then Found(e, t.right, sec)
    else t.node
  }

  ghost predicate Contains(x: Extent, sec: nat) {
    x.lo <= sec < x.hi
  }

  ghost predicate Inside(x: Extent, lo: nat, hi: nat) {
    lo <= x.lo && x.hi <= hi
  }

  /** `rb_foreach`: what it appends, in the order in which it does. */
  ghost function Collected(e: map<Node, Extent>, t: Shape, lo: nat, hi: nat): seq<Node>
    requires Nodes(t) <= e.Keys
  {
    if t.Leaf? then []
    else
      (if Inside(e[t.node], lo, hi) then [t.node] else [])
      + (if lo < e[t.node].lo then Collected(e, t.left, lo, hi) else [])
      + (if e[t.node].hi < hi then Collected(e, t.right, lo, hi) else [])
  }

  lemma Assembled(e: map<Node, Extent>, t: Shape, lo: nat, hi: nat,
                  before: seq<Node>, first: seq<Node>, right: seq<Node>)
    requires t.Branch? && Nodes(t) <= e.Keys
    requires first == (if Inside(e[t.node], lo, hi) then [t.node] else [])
                      + (if lo < e[t.node].lo then Collected(e, t.left, lo, hi) else [])
    requires right == if e[t.node].hi < hi then Collected(e, t.right, lo, hi) else []
    ensures before + first + right == before + Collected(e, t, lo, hi)
  {
    Joined(before, first, right);
    assert Collected(e, t, lo, hi) == first + right;
  }

  lemma Joined(a: seq<Node>, b: seq<Node>, c: seq<Node>)
    ensures a + b + c == a + (b + c)
  {
  }

  /** Whatever the overlaps: only stored extents inside the query are collected, each once. */
  lemma {:induction false} CollectedIsSound(e: map<Node, Extent>, t: Shape, lo: nat, hi: nat)
    requires Nodes(t) <= e.Keys && Distinct(t)
    ensures forall i :: 0 <= i < |Collected(e, t, lo, hi)| ==>
      Collected(e, t, lo, hi)[i] in Nodes(t) && Collected(e, t, lo, hi)[i] in e
        && Inside(e[Collected(e, t, lo, hi)[i]], lo, hi)
    ensures forall i, j :: 0 <= i < j < |Collected(e, t, lo, hi)| ==>
      Collected(e, t, lo, hi)[i] != Collected(e, t, lo, hi)[j]
  {
    if t.Branch? {
      CollectedIsSound(e, t.left, lo, hi);
      CollectedIsSound(e, t.right, lo, hi);
      var m := if Inside(e[t.node], lo, hi) then [t.node] else [];
      var l := if lo < e[t.node].lo then Collected(e, t.left, lo, hi) else [];
      var r := if e[t.node].hi < hi then Collected(e, t.right, lo, hi) else [];
      assert Collected(e, t, lo, hi) == m + l + r;
    }
  }

  /** What lies right of a node in the tree also ends after it. */
  ghost predicate RightEndsLater(e: map<Node, Extent>, t: Shape)
    requires Nodes(t) <= e.Keys
  {
    match t
    case Leaf => true
    case Branch(l, n, _, r) =>
      && (forall m :: m in Nodes(r) ==> e[n].hi < e[m].hi)
      && RightEndsLater(e, l) && RightEndsLater(e, r)
  }

  ghost predicate FindsAll(e: map<Node, Extent>, t: Shape, lo: nat, hi: nat)
    requires Nodes(t) <= e.Keys
  {
    forall m :: m in Nodes(t) && Inside(e[m], lo, hi) ==> m in Collected(e, t, lo, hi)
  }

  lemma ShapeAscends(e: map<Node, Extent>, t: Shape)
    requires t.Branch? && Nodes(t) <= e.Keys && Ascending(e, Inorder(t))
    ensures Ascending(e, Inorder(t.left)) && Ascending(e, Inorder(t.right))
    ensures forall m :: m in Nodes(t.left) ==> e[m].lo < e[t.node].lo
    ensures forall m :: m in Nodes(t.right) ==> e[t.node].lo < e[m].lo
  {
    assert Inorder(t) == Inorder(t.left) + ([t.node] + Inorder(t.right));
    AscendingParts(e, Inorder(t.left), t.node, Inorder(t.right));
    forall m | m in Nodes(t.left) ensures e[m].lo < e[t.node].lo { InorderNodes(t.left, m); }
    forall m | m in Nodes(t.right) ensures e[t.node].lo < e[m].lo { InorderNodes(t.right, m); }
  }

  lemma {:induction false} RightEndsLaterFindsAll(e: map<Node, Extent>, t: Shape, lo: nat, hi: nat)
    requires Nodes(t) <= e.Keys && Ascending(e, Inorder(t)) && RightEndsLater(e, t)
    ensures FindsAll(e, t, lo, hi)
  {
    if t.Branch? {
      ShapeAscends(e, t);
      RightEndsLaterFindsAll(e, t.left, lo, hi);
      RightEndsLaterFindsAll(e, t.right, lo, hi);
    }
  }

  /** A node that ends no later than one it lies right of is missed, even when it is just what is asked for. */
  lemma {:induction false} EarlyEndIsMissed(e: map<Node, Extent>, t: Shape, n: Node, m: Node)
    requires Nodes(t) <= e.Keys && Ascending(e, Inorder(t)) && Distinct(t) && n in Nodes(t) && m in Nodes(t)
    requires HangsRight(t, n, m) && e[m].hi <= e[n].hi
    ensures m !in Collected(e, t, e[m].lo, e[m].hi)
  {
    ShapeAscends(e, t);
    CollectedIsSound(e, t.left, e[m].lo, e[m].hi);
    CollectedIsSound(e, t.right, e[m].lo, e[m].hi);
    if n == t.node {
      assert m in Nodes(t.right);
    } else if n in Nodes(t.left) {
      EarlyEndIsMissed(e, t.left, n, m);
    } else {
      EarlyEndIsMissed(e, t.right, n, m);
    }
  }

  /** `m` is in the right subtree of `n`. */
  ghost predicate HangsRight(t: Shape, n: Node, m: Node) {
    match t
    case Leaf => false
    case Branch(l, k, _, r) =>
      if n == k then m in Nodes(r)
      else if n in Nodes(l) then m in Nodes(l) && HangsRight(l, n, m)
      else m in Nodes(r) && HangsRight(r, n, m)
  }

  lemma {:induction false} EarlyEndExists(e: map<Node, Extent>, t: Shape) returns (n: Node, m: Node)
    requires Nodes(t) <= e.Keys && Distinct(t) && !RightEndsLater(e, t)
    ensures n in Nodes(t) && m in Nodes(t) && HangsRight(t, n, m) && e[m].hi <= e[n].hi
  {
    if !RightEndsLater(e, t.left) {
      n, m := EarlyEndExists(e, t.left);
    } else if !RightEndsLater(e, t.right) {
      n, m := EarlyEndExists(e, t.right);
    } else {
      n := t.node;
      m :| m in Nodes(t.right) && e[m].hi <= e[n].hi;
    }
  }

  /** Exactly when does the pruning of `rb_foreach` lose nothing, whatever is asked for? */
  lemma NothingLostIff(e: map<Node, Extent>, t: Shape)
    requires Nodes(t) <= e.Keys && Ascending(e, Inorder(t)) && Distinct(t)
    ensures (forall lo, hi :: FindsAll(e, t, lo, hi)) <==> RightEndsLater(e, t)
  {
    if RightEndsLater(e, t) {
      forall lo, hi ensures FindsAll(e, t, lo, hi) {
        RightEndsLaterFindsAll(e, t, lo, hi);
      }
    } else {
      var n, m := EarlyEndExists(e, t);
      EarlyEndIsMissed(e, t, n, m);
      assert !FindsAll(e, t, e[m].lo, e[m].hi);
    }
  }

  // ---------- three extents ----------

  lemma NoBlackAtMostOne(t: Shape)
    requires Balanced(t) && BlackHeight(t) == 0
    ensures |Inorder(t)| <= 1
  {
    if t.Branch? {
      assert t.left.Leaf? && t.right.Leaf?;
    }
  }

  /** Of three nodes the middle one is the root, in whatever order they came. */
  lemma MiddleOnTop(t: Shape, a: Node, b: Node, c: Node)
    requires RedBlack(t) && Inorder(t) == [a, b, c]
    ensures t.Branch? && t.node == b && Inorder(t.left) == [a] && Inorder(t.right) == [c]
  {
    var l, r := Inorder(t.left), Inorder(t.right);
    assert |l| + 1 + |r| == 3;
    if l == [] {
      assert t.left.Leaf?;
      NoBlackAtMostOne(t.right);
    } else if r == [] {
      assert t.right.Leaf?;
      NoBlackAtMostOne(t.left);
    }
    assert t.node == (l + [t.node] + r)[|l|];
    assert l == [a] && r == [c] by {
      assert l[0] == (l + [t.node] + r)[0] && r[0] == (l + [t.node] + r)[2];
    }
  }

  lemma OneNode(t: Shape, n: Node)
    requires Inorder(t) == [n]
    ensures t.Branch? && t.node == n && t.left.Leaf? && t.right.Leaf?
  {
    var l, r := Inorder(t.left), Inorder(t.right);
    assert |l| + 1 + |r| == 1 && (l + [t.node] + r)[|l|] == t.node;
    assert t.left.Branch? ==> |l| >= 1;
    assert t.right.Branch? ==> |r| >= 1;
  }

  /** With three extents nothing is lost, whatever is asked for, if and only if the last ends after the middle one. */
  lemma ThreeIff(e: map<Node, Extent>, t: Shape, a: Node, b: Node, c: Node)
    requires Nodes(t) <= e.Keys && Ascending(e, Inorder(t)) && Distinct(t) && RedBlack(t)
    requires Inorder(t) == [a, b, c]
    ensures b in e && c in e && ((forall lo, hi :: FindsAll(e, t, lo, hi)) <==> e[b].hi < e[c].hi)
    ensures e[c].hi <= e[b].hi ==> c !in Collected(e, t, e[c].lo, e[c].hi)
  {
    MiddleOnTop(t, a, b, c);
    OneNode(t.left, a);
    OneNode(t.right, c);
    assert Nodes(t.left) == {a} && Nodes(t.right) == {c};
    assert RightEndsLater(e, t.left) && RightEndsLater(e, t.right);
    NothingLostIff(e, t);
    if e[c].hi <= e[b].hi {
      EarlyEndIsMissed(e, t, b, c);
    }
  }

  /** The sequence of three nodes is in the order of their extents. */
  lemma InOrderOfThree(e: map<Node, Extent>, t: Shape, a: Node, b: Node, c: Node)
    requires |Inorder(t)| == 3 && Ascending(e, Inorder(t)) && Nodes(t) <= {a, b, c}
    requires a in e && b in e && c in e && e[a].lo < e[b].lo < e[c].lo
    ensures Inorder(t) == [a, b, c]
  {
    var s := Inorder(t);
    forall i | 0 <= i < 3 ensures s[i] == a || s[i] == b || s[i] == c {
      InorderNodes(t, s[i]);
    }
    assert e[s[0]].lo < e[s[1]].lo < e[s[2]].lo;
  }

  ghost predicate Apart(e: map<Node, Extent>, s: set<Node>)
    requires s <= e.Keys
  {
    && (forall m :: m in s ==> e[m].lo < e[m].hi)
    && (forall m, n :: m in s && n in s && e[m].lo < e[n].lo ==> e[m].hi <= e[n].lo)
  }

  /** Extents of at least one sector that do not overlap are never lost. */
  lemma {:induction false} ApartEndsLater(e: map<Node, Extent>, t: Shape)
    requires Nodes(t) <= e.Keys && Ascending(e, Inorder(t)) && Apart(e, Nodes(t))
    ensures RightEndsLater(e, t)
  {
    if t.Branch? {
      ShapeAscends(e, t);
      ApartEndsLater(e, t.left);
      ApartEndsLater(e, t.right);
    }
  }

  /** What `rb_find_sec` returns contains the sector; without overlaps it is the only one that does. */
  lemma {:induction false} FoundIsRight(e: map<Node, Extent>, t: Shape, sec: nat)
    requires Nodes(t) <= e.Keys && Ascending(e, Inorder(t))
    ensures Found(e, t, sec) != null ==> Found(e, t, sec) in Nodes(t) && Contains(e[Found(e, t, sec)], sec)
    ensures Apart(e, Nodes(t)) ==> forall m :: m in Nodes(t) ==> (Contains(e[m], sec) <==> m == Found(e, t, sec))
  {
    if t.Branch? {
      ShapeAscends(e, t);
      FoundIsRight(e, t.left, sec);
      FoundIsRight(e, t.right, sec);
      if Apart(e, Nodes(t)) {
        assert Apart(e, Nodes(t.left)) && Apart(e, Nodes(t.right));
      }
    }
  }

  // ---------- overlaps, and what they hide from a search for a sector ----------

  /** The search for `sec` turns right at a node that has `m` on its left. */
  ghost predicate CutOff(e: map<Node, Extent>, t: Shape, m: Node, sec: nat)
    requires Nodes(t) <= e.Keys
  {
    match t
    case Leaf => false
    case Branch(l, n, _, r) =>
      if m in Nodes(l) then (e[n].lo <= sec && e[n].hi <= sec) || CutOff(e, l, m, sec)
      else m in Nodes(r) && CutOff(e, r, m, sec)
  }

  ghost predicate Visible(e: map<Node, Extent>, t: Shape, m: Node, sec: nat)
    requires Nodes(t) <= e.Keys
  {
    m in Nodes(t) && Contains(e[m], sec) && !CutOff(e, t, m, sec)
  }

  lemma {:induction false} FoundIsVisible(e: map<Node, Extent>, t: Shape, sec: nat)
    requires Nodes(t) <= e.Keys && Ascending(e, Inorder(t)) && Distinct(t)
    ensures Found(e, t, sec) != null ==> Visible(e, t, Found(e, t, sec), sec)
  {
    if t.Branch? {
      ShapeAscends(e, t);
      FoundIsRight(e, t.left, sec);
      FoundIsRight(e, t.right, sec);
      FoundIsVisible(e, t.left, sec);
      FoundIsVisible(e, t.right, sec);
    }
  }

  lemma {:induction false} VisibleIsFound(e: map<Node, Extent>, t: Shape, m: Node, sec: nat)
    requires Nodes(t) <= e.Keys && Ascending(e, Inorder(t)) && Distinct(t) && Visible(e, t, m, sec)
    ensures Found(e, t, sec) != null
  {
    ShapeAscends(e, t);
    if m in Nodes(t.left) {
      if sec < e[t.node].lo {
        VisibleIsFound(e, t.left, m, sec);
      }
    } else if m in Nodes(t.right) {
      if sec >= e[t.node].hi {
        VisibleIsFound(e, t.right, m, sec);
      }
    }
  }

  /** Whatever the overlaps: something is found if and only if an extent with the sector is not cut off. */
  lemma FoundIff(e: map<Node, Extent>, t: Shape, sec: nat)
    requires Nodes(t) <= e.Keys && Ascending(e, Inorder(t)) && Distinct(t)
    ensures Found(e, t, sec) != null <==> exists m :: Visible(e, t, m, sec)
  {
    FoundIsVisible(e, t, sec);
    if m :| Visible(e, t, m, sec) {
      VisibleIsFound(e, t, m, sec);
    }
  }

  /** Every sector of a stored extent leads to some extent that contains it. */
  ghost predicate SectorsFound(e: map<Node, Extent>, t: Shape)
    requires Nodes(t) <= e.Keys
  {
    forall m, sec :: m in Nodes(t) && Contains(e[m], sec) ==> Found(e, t, sec) != null
  }

  /** What begins later ends later: no extent lies inside another. */
  ghost predicate NoneInside(e: map<Node, Extent>, s: set<Node>)
    requires s <= e.Keys
  {
    forall m, n :: m in s && n in s && e[m].lo < e[n].lo ==> e[m].hi < e[n].hi
  }

  lemma {:induction false} NoneInsideEndsLater(e: map<Node, Extent>, t: Shape)
    requires Nodes(t) <= e.Keys && Ascending(e, Inorder(t)) && NoneInside(e, Nodes(t))
    ensures RightEndsLater(e, t)
    ensures forall m, sec :: m in Nodes(t) && Contains(e[m], sec) ==> !CutOff(e, t, m, sec)
  {
    if t.Branch? {
      ShapeAscends(e, t);
      NoneInsideEndsLater(e, t.left);
      NoneInsideEndsLater(e, t.right);
    }
  }

  /** As long as no extent lies inside another, both searches are complete in every tree of them. */
  lemma NoneInsideNoneLost(e: map<Node, Extent>, t: Shape)
    requires Nodes(t) <= e.Keys && Ascending(e, Inorder(t)) && Distinct(t) && NoneInside(e, Nodes(t))
    ensures SectorsFound(e, t)
    ensures forall lo, hi :: FindsAll(e, t, lo, hi)
  {
    NoneInsideEndsLater(e, t);
    NothingLostIff(e, t);
    forall m, sec | m in Nodes(t) && Contains(e[m], sec) ensures Found(e, t, sec) != null {
      VisibleIsFound(e, t, m, sec);
    }
  }

  lemma FoundOfOne(e: map<Node, Extent>, t: Shape, n: Node, sec: nat)
    requires Nodes(t) <= e.Keys && t.Branch? && t.node == n && t.left.Leaf? && t.right.Leaf?
    ensures n in e && Found(e, t, sec) == if Contains(e[n], sec) then n else null
  {
    assert Found(e, t.left, sec) == null && Found(e, t.right, sec) == null;
  }

  lemma FoundOfThree(e: map<Node, Extent>, t: Shape, a: Node, b: Node, c: Node, sec: nat)
    requires Nodes(t) <= e.Keys && Ascending(e, Inorder(t)) && RedBlack(t) && Inorder(t) == [a, b, c]
    ensures Nodes(t) == {a, b, c} && e[a].lo < e[b].lo < e[c].lo
    ensures Found(e, t, sec) ==
      if sec < e[b].lo then (if Contains(e[a], sec) then a else null)
      else if sec < e[b].hi then b
      else if Contains(e[c], sec) then c else null
  {
    MiddleOnTop(t, a, b, c);
    OneNode(t.left, a);
    OneNode(t.right, c);
    assert Nodes(t.left) == {a} && Nodes(t.right) == {c};
    ShapeAscends(e, t);
    FoundOfOne(e, t.left, a, sec);
    FoundOfOne(e, t.right, c, sec);
  }

  /**
    With three extents every sector is found if and only if the first ends with the middle
    one, or what is behind that is in the last.
   */
  lemma ThreeFoundIff(e: map<Node, Extent>, t: Shape, a: Node, b: Node, c: Node)
    requires Nodes(t) <= e.Keys && Ascending(e, Inorder(t)) && RedBlack(t) && Inorder(t) == [a, b, c]
    ensures a in e && b in e && c in e
    ensures SectorsFound(e, t) <==>
      var end := Max(e[b].lo, e[b].hi); e[a].hi <= end || (e[c].lo <= end && e[a].hi <= e[c].hi)
  {
    FoundOfThree(e, t, a, b, c, 0);
    var end: nat := Max(e[b].lo, e[b].hi);
    forall m, sec | m in Nodes(t) && Contains(e[m], sec)
      && (e[a].hi <= end || (e[c].lo <= end && e[a].hi <= e[c].hi))
      ensures Found(e, t, sec) != null
    {
      FoundOfThree(e, t, a, b, c, sec);
    }
    if SectorsFound(e, t) && e[a].hi > end {
      assert Contains(e[a], end) && Contains(e[a], e[a].hi - 1);
      FoundOfThree(e, t, a, b, c, end);
      FoundOfThree(e, t, a, b, c, e[a].hi - 1);
    }
  }

  // ---------- one more extent ----------

  lemma NoneEqual(e: map<Node, Extent>, t: Shape, a: seq<Node>, b: seq<Node>, lo: nat)
    requires Inorder(t) == a + b && AllBelow(e, a, lo) && AllAbove(e, b, lo)
    ensures forall m :: m in Nodes(t) ==> m in e && e[m].lo != lo
  {
    forall m | m in Nodes(t) ensures m in e && e[m].lo != lo {
      InorderNodes(t, m);
      assert m in a || m in b;
    }
  }

  /** A new node goes where the search for its first sector ends. */
  lemma ReadyToStore(e: map<Node, Extent>, t: Shape, p: Path, n: Node, x: Extent)
    requires Plug(p, Leaf) == t && n !in Nodes(t) && Ascending(e, Inorder(t))
    requires AllBelow(e, Before(p), x.lo) && AllAbove(e, After(p), x.lo)
    ensures forall m :: m in Nodes(t) ==> m in e && e[m].lo != x.lo
    ensures Ascending(e[n := x], Before(p) + [n] + After(p))
    ensures Without(Before(p) + [n] + After(p), n) == Inorder(t)
  {
    var a, b := Before(p), After(p);
    InorderOfPlug(p, Leaf);
    assert Inorder(t) == a + b;
    NoneEqual(e, t, a, b, x.lo);
    assert n !in a && n !in b by {
      InorderNodes(t, n);
    }
    AscendingInserted(e, a, n, x, b);
    WithoutMiddle(a, n, b);
  }

  // ---------- the searches, as pointer walks ----------

  /** A caller's list, to which I/Os are appended. */
  class IoList {
    var list: seq<Node>

    constructor ()
      ensures list == []
    {
      list := [];
    }
  }

  class IoTree {
    const root: Root
    var entry: map<Node, Extent>

    ghost predicate Valid()
      reads this, root, root.nodes
    {
      root.Valid() && entry.Keys == root.nodes && Ascending(entry, root.Contents())
    }

    constructor ()
      ensures Valid() && root.Contents() == [] && fresh(root) && fresh(root.nodes)
    {
      root := new Root();
      entry := map[];
    }

    /** The keys on either side of where the search stands. */
    ghost predicate Searching(lo: nat, p: Path, t: Shape, parent: Node?, link: Link)
      reads this, root, root.nodes
    {
      && root.At(p, t) && Plug(p, t) == root.shape && parent == ParentOf(p) && link == LinkOf(p)
      && AllBelow(entry, Before(p), lo) && AllAbove(entry, After(p), lo)
    }

    method Descend(cur: Node, lo: nat, ghost p: Path, ghost t: Shape)
      returns (next: Node?, link: Link, ghost q: Path, ghost u: Shape)
      requires Valid() && root.At(p, t) && Plug(p, t) == root.shape && t.Branch? && t.node == cur
      requires cur in entry && entry[cur].lo != lo && AllBelow(entry, Before(p), lo) && AllAbove(entry, After(p), lo)
      ensures Searching(lo, q, u, cur, link) && next == Top(u) && u < t
    {
      root.Look(p, t);
      InorderOfPlug(p, t);
      RegroupAround(Before(p), Inorder(t.left), cur, Inorder(t.right), After(p));
      AscendingParts(entry, Before(p) + Inorder(t.left), cur, Inorder(t.right) + After(p));
      if lo < entry[cur].lo {
        next, link := cur.left, LeftLink(cur);
        q, u := OnLeft(p, t.node, t.red, t.right), t.left;
      } else {
        next, link := cur.right, RightLink(cur);
        q, u := OnRight(p, t.node, t.red, t.left), t.right;
      }
      root.StepDown(q, u);
    }

    method Search(lo: nat) returns (cur: Node?, parent: Node?, link: Link, ghost p: Path, ghost t: Shape)
      requires Valid()
      ensures Searching(lo, p, t, parent, link) && cur == Top(t)
      ensures cur != null ==> cur in entry && entry[cur].lo == lo
    {
      p, t := AtRoot, root.shape;
      parent, link, cur := null, RootLink, root.node;
      root.Look(p, t);
      while cur != null
        invariant Searching(lo, p, t, parent, link) && cur == Top(t)
        decreases t
      {
        assert cur in entry by {
          NodesOfPlug(p, t);
        }
        if entry[cur].lo == lo {
          return;
        }
        parent := cur;
        cur, link, p, t := Descend(cur, lo, p, t);
      }
    }

    /** `rb_insert`: refused just when the first sector is there already. */
    method Insert(n: Node, x: Extent) returns (ok: bool)
      requires Valid() && n !in root.nodes
      modifies this, root, root.nodes, n
      ensures Valid()
      ensures ok <==> forall m :: m in old(root.nodes) ==> old(entry)[m].lo != x.lo
      ensures !ok ==> entry == old(entry) && root.Contents() == old(root.Contents())
      ensures ok ==>
        entry == old(entry)[n := x] && Without(root.Contents(), n) == old(root.Contents()) && n in root.nodes
    {
      var cur, parent, link;
      ghost var p, t;
      cur, parent, link, p, t := Search(x.lo);
      NodesOfPlug(p, t);
      if cur != null {
        return false;
      }
      Store(n, x, parent, link, p);
      return true;
    }

    method Store(n: Node, x: Extent, parent: Node?, link: Link, ghost p: Path)
      requires Valid() && n !in root.nodes && Searching(x.lo, p, Leaf, parent, link)
      modifies this, root, root.nodes, n
      ensures forall m :: m in old(root.nodes) ==> old(entry)[m].lo != x.lo
      ensures Valid() && entry == old(entry)[n := x] && n in root.nodes
      ensures Without(root.Contents(), n) == old(root.Contents())
    {
      ReadyToStore(entry, root.shape, p, n, x);
      root.Insert(n, parent, link, p);
      entry := entry[n := x];
    }

    /** `rb_find_sec` */
    method FindSec(sec: nat) returns (n: Node?)
      requires Valid()
      ensures n == Found(entry, root.shape, sec)
      ensures n != null <==> exists m :: Visible(entry, root.shape, m, sec)
      ensures n != null ==> n in entry && Contains(entry[n], sec)
      ensures Apart(entry, root.nodes) ==> forall m :: m in root.nodes ==> (Contains(entry[m], sec) <==> m == n)
    {
      ghost var p, t := AtRoot, root.shape;
      n := root.node;
      root.Look(p, t);
      FoundIsRight(entry, root.shape, sec);
      FoundIff(entry, root.shape, sec);
      while n != null
        invariant root.At(p, t) && n == Top(t) && Nodes(t) <= entry.Keys
        invariant Found(entry, t, sec) == Found(entry, root.shape, sec)
        decreases t
      {
        root.Look(p, t);
        if sec < entry[n].lo {
          n, p, t := n.left, OnLeft(p, t.node, t.red, t.right), t.left;
        } else if sec >= entry[n].hi {
          n, p, t := n.right, OnRight(p, t.node, t.red, t.left), t.right;
        } else {
          return;
        }
        root.StepDown(p, t);
      }
    }

    /** `rb_foreach` */
    method ForEach(n: Node?, lo: nat, hi: nat, head: IoList, ghost p: Path, ghost t: Shape)
      requires root.At(p, t) && n == Top(t) && Nodes(t) <= entry.Keys
      modifies head
      ensures head.list == old(head.list) + Collected(entry, t, lo, hi)
      decreases t, 1
    {
      if n != null {
        var x := entry[n];
        root.Look(p, t);
        ghost var before := head.list;
        ghost var ml := NodeAndLeft(n, x, lo, hi, head, p, t);
        ghost var r := Right(n, x, lo, hi, head, p, t);
        Assembled(entry, t, lo, hi, before, ml, r);
      }
    }

    method Right(n: Node, x: Extent, lo: nat, hi: nat, head: IoList, ghost p: Path, ghost t: Shape)
      returns (ghost more: seq<Node>)
      requires root.At(p, t) && t.Branch? && t.node == n && Nodes(t) <= entry.Keys && entry[n] == x
      modifies head
      ensures more == (if x.hi < hi then Collected(entry, t.right, lo, hi) else [])
        && head.list == old(head.list) + more
      decreases t, 0
    {
      root.Look(p, t);
      more := ForKid(n.right, x.hi < hi, lo, hi, head, OnRight(p, n, t.red, t.left), t.right, p, t);
    }

    method NodeAndLeft(n: Node, x: Extent, lo: nat, hi: nat, head: IoList, ghost p: Path, ghost t: Shape)
      returns (ghost more: seq<Node>)
      requires root.At(p, t) && t.Branch? && t.node == n && Nodes(t) <= entry.Keys && entry[n] == x
      modifies head
      ensures more == (if Inside(x, lo, hi) then [n] else [])
        + (if lo < x.lo then Collected(entry, t.left, lo, hi) else [])
      ensures head.list == old(head.list) + more
      decreases t, 0
    {
      root.Look(p, t);
      ghost var before := head.list;
      ghost var m := if Inside(x, lo, hi) then [n] else [];
      if lo <= x.lo && x.hi <= hi {
        head.list := head.list + [n];
      }
      assert head.list == before + m;
      ghost var l := ForKid(n.left, lo < x.lo, lo, hi, head, OnLeft(p, n, t.red, t.right), t.left, p, t);
      Joined(before, m, l);
      more := m + l;
    }

    /** The search of one subtree, if it is not pruned. */
    method ForKid(n: Node?, go: bool, lo: nat, hi: nat, head: IoList, ghost p: Path, ghost t: Shape,
                  ghost up: Path, ghost above: Shape)
      returns (ghost more: seq<Node>)
      requires root.At(up, above) && !p.AtRoot? && up == p.up && above == Raised(p, t)
      requires n == Top(t) && Nodes(t) <= entry.Keys
      modifies head
      ensures more == (if go then Collected(entry, t, lo, hi) else []) && head.list == old(head.list) + more
      decreases t, 2
    {
      more := [];
      if go {
        root.StepDown(p, t);
        ForEach(n, lo, hi, head, p, t);
        more := Collected(entry, t, lo, hi);
      }
    }

    /** The search as its callers start it: over non-overlapping extents it finds just those inside. */
    method AllInside(lo: nat, hi: nat) returns (head: IoList)
      requires Valid()
      ensures forall i :: 0 <= i < |head.list| ==> head.list[i] in entry && Inside(entry[head.list[i]], lo, hi)
      ensures forall i, j :: 0 <= i < j < |head.list| ==> head.list[i] != head.list[j]
      ensures Apart(entry, root.nodes) ==>
        forall m :: m in root.nodes ==> (m in head.list <==> Inside(entry[m], lo, hi))
      ensures Nodes(root.shape) <= entry.Keys && head.list == Collected(entry, root.shape, lo, hi)
    {
      head := new IoList();
      root.Look(AtRoot, root.shape);
      CollectedIsSound(entry, root.shape, lo, hi);
      if Apart(entry, root.nodes) {
        ApartEndsLater(entry, root.shape);
        RightEndsLaterFindsAll(entry, root.shape, lo, hi);
      }
      ForEach(root.node, lo, hi, head, AtRoot, root.shape);
    }

    /** One more extent, in a new node. */
    method Add(x: Extent) returns (n: Node)
      requires Valid() && forall m :: m in root.nodes ==> entry[m].lo != x.lo
      modifies this, root, root.nodes
      ensures Valid() && fresh(n) && root.nodes == old(root.nodes) + {n} && entry == old(entry)[n := x]
      ensures |root.Contents()| == |old(root.Contents())| + 1
    {
      n := new Node();
      var ok := Insert(n, x);
      InorderNodes(root.shape, n);
      WithoutLength(root.Contents(), n);
    }

    /** A tree of three extents. */
    static method OfThree(x: Extent, y: Extent, z: Extent) returns (tree: IoTree, ghost a: Node, ghost b: Node, c: Node)
      requires x.lo < y.lo < z.lo
      ensures fresh(tree) && tree.Valid() && tree.entry == map[a := x, b := y, c := z]
      ensures tree.root.Contents() == [a, b, c]
    {
      tree := new IoTree();
      a := tree.Add(x);
      b := tree.Add(y);
      c := tree.Add(z);
      InOrderOfThree(tree.entry, tree.root.shape, a, b, c);
    }

    /** An extent that ends no later than one before it can be stored and still not be found. */
    static method LoseOne(x: Extent, y: Extent, z: Extent) returns (tree: IoTree, n: Node, head: IoList)
      requires x.lo < y.lo < z.lo && z.hi <= y.hi
      ensures tree.Valid() && n in tree.root.nodes && n in tree.entry && tree.entry[n] == z
      ensures Inside(tree.entry[n], z.lo, z.hi) && n !in head.list
    {
      ghost var a, b;
      tree, a, b, n := OfThree(x, y, z);
      ThreeIff(tree.entry, tree.root.shape, a, b, n);
      head := tree.AllInside(z.lo, z.hi);
    }
  }
}

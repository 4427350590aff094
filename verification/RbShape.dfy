/**
  The mathematical side of the red-black tree: what a pointer tree looks like when it is
  read as a value, and what it means for one to be red-black.

  A `Shape` is a whole subtree.  A `Path` is the rest of the tree around one subtree: the
  frames met on the way from that subtree up to the root.  Rebalancing moves a focus (a
  path together with the subtree hanging under it) up and down the tree.
 */
module RbShape {
  import opened Common

  /** One tree node.  The parent pointer and the colour are two fields here. */
  class Node {
    var left: Node?
    var right: Node?
    var parent: Node?
    var red: bool

    constructor ()
    {
      left, right, parent, red := null, null, null, false;
    }
  }

  datatype Shape = Leaf | Branch(left: Shape, node: Node, red: bool, right: Shape)

  datatype Path =
    | AtRoot
    | OnLeft(up: Path, node: Node, red: bool, other: Shape)   // the focus is node's left child
    | OnRight(up: Path, node: Node, red: bool, other: Shape)  // the focus is node's right child

  // ---------- nodes, in-order sequence ----------

  ghost function Top(t: Shape): Node? {
    if t.Leaf? then null else t.node
  }

  ghost function ParentOf(p: Path): Node? {
    if p.AtRoot? then null else p.node
  }

  ghost function Nodes(t: Shape): set<Node> {
    match t
    case Leaf => {}
    case Branch(l, n, _, r) => Nodes(l) + {n} + Nodes(r)
  }

  ghost function PathNodes(p: Path): set<Node> {
    match p
    case AtRoot => {}
    case OnLeft(up, n, _, s) => PathNodes(up) + {n} + Nodes(s)
    case OnRight(up, n, _, s) => PathNodes(up) + {n} + Nodes(s)
  }

  ghost function Inorder(t: Shape): seq<Node> {
    match t
    case Leaf => []
    case Branch(l, n, _, r) => Inorder(l) + [n] + Inorder(r)
  }

  /** The nodes before, and the nodes after, everything in the focus. */
  ghost function Before(p: Path): seq<Node> {
    match p
    case AtRoot => []
    case OnLeft(up, _, _, _) => Before(up)
    case OnRight(up, n, _, s) => Before(up) + Inorder(s) + [n]
  }

  ghost function After(p: Path): seq<Node> {
    match p
    case AtRoot => []
    case OnLeft(up, n, _, s) => [n] + Inorder(s) + After(up)
    case OnRight(up, _, _, _) => After(up)
  }

  /** No node occurs twice. */
  ghost predicate Distinct(t: Shape) {
    match t
    case Leaf => true
    case Branch(l, n, _, r) =>
      n !in Nodes(l) && n !in Nodes(r) && Nodes(l) !! Nodes(r) && Distinct(l) && Distinct(r)
  }

  ghost predicate DistinctPath(p: Path) {
    match p
    case AtRoot => true
    case OnLeft(up, n, _, s) =>
      n !in PathNodes(up) && n !in Nodes(s) && PathNodes(up) !! Nodes(s) && DistinctPath(up) && Distinct(s)
    case OnRight(up, n, _, s) =>
      n !in PathNodes(up) && n !in Nodes(s) && PathNodes(up) !! Nodes(s) && DistinctPath(up) && Distinct(s)
  }

  ghost function Depth(p: Path): nat {
    if p.AtRoot? then 0 else 1 + Depth(p.up)
  }

  // ---------- putting a subtree back under its path ----------

  ghost function Raised(p: Path, t: Shape): Shape
    requires !p.AtRoot?
  {
    if p.OnLeft? then Branch(t, p.node, p.red, p.other) else Branch(p.other, p.node, p.red, t)
  }

  ghost function Plug(p: Path, t: Shape): Shape
    decreases p
  {
    if p.AtRoot? then t else Plug(p.up, Raised(p, t))
  }

  /** The path that first climbs `inner` and then `outer`. */
  ghost function Extend(outer: Path, inner: Path): Path
    decreases inner
  {
    match inner
    case AtRoot => outer
    case OnLeft(up, n, red, s) => OnLeft(Extend(outer, up), n, red, s)
    case OnRight(up, n, red, s) => OnRight(Extend(outer, up), n, red, s)
  }

  lemma Regroup(a: seq<Node>, b: seq<Node>, c: seq<Node>, d: seq<Node>)
    ensures a + (b + c) + d == a + b + (c + d)
    ensures (a + b) + c + d == a + (b + c) + d
  {
  }

  lemma {:induction false} InorderOfPlug(p: Path, t: Shape)
    ensures Inorder(Plug(p, t)) == Before(p) + Inorder(t) + After(p)
    decreases p
  {
    match p
    case AtRoot =>
    case OnLeft(up, n, red, s) =>
      InorderOfPlug(up, Branch(t, n, red, s));
      Regroup(Before(up), Inorder(t), [n] + Inorder(s), After(up));
      assert Inorder(t) + [n] + Inorder(s) == Inorder(t) + ([n] + Inorder(s));
    case OnRight(up, n, red, s) =>
      InorderOfPlug(up, Branch(s, n, red, t));
      Regroup(Before(up), Inorder(s) + [n], Inorder(t), After(up));
      assert Before(up) + Inorder(s) + [n] == Before(up) + (Inorder(s) + [n]);
  }

  /** What hangs below a path may be reshaped without moving anything in the sequence. */
  lemma Reshaped(p: Path, t: Shape, u: Shape)
    requires Inorder(t) == Inorder(u)
    ensures Inorder(Plug(p, t)) == Inorder(Plug(p, u))
  {
    InorderOfPlug(p, t);
    InorderOfPlug(p, u);
  }

  lemma {:induction false} NodesOfPlug(p: Path, t: Shape)
    ensures Nodes(Plug(p, t)) == PathNodes(p) + Nodes(t)
    decreases p
  {
    match p
    case AtRoot =>
    case OnLeft(up, n, red, s) => NodesOfPlug(up, Branch(t, n, red, s));
    case OnRight(up, n, red, s) => NodesOfPlug(up, Branch(s, n, red, t));
  }

  lemma {:induction false} NodesOfExtend(outer: Path, inner: Path)
    ensures PathNodes(Extend(outer, inner)) == PathNodes(outer) + PathNodes(inner)
    decreases inner
  {
    if !inner.AtRoot? {
      NodesOfExtend(outer, inner.up);
    }
  }

  lemma {:induction false} InorderNodes(t: Shape, n: Node)
    ensures n in Inorder(t) <==> n in Nodes(t)
  {
    if t.Branch? {
      InorderNodes(t.left, n);
      InorderNodes(t.right, n);
    }
  }

  lemma {:induction false} InorderDistinct(t: Shape)
    requires Distinct(t)
    ensures forall i, j :: 0 <= i < j < |Inorder(t)| ==> Inorder(t)[i] != Inorder(t)[j]
  {
    if t.Branch? {
      InorderDistinct(t.left);
      InorderDistinct(t.right);
      var l, r := Inorder(t.left), Inorder(t.right);
      forall i, j | 0 <= i < j < |Inorder(t)| ensures Inorder(t)[i] != Inorder(t)[j] {
        InorderNodes(t.left, Inorder(t)[i]);
        InorderNodes(t.right, Inorder(t)[j]);
      }
    }
  }

  /** Every node of a tree can be focused on. */
  lemma {:induction false} FocusOn(p: Path, t: Shape, n: Node) returns (q: Path, u: Shape)
    requires n in Nodes(t)
    ensures u.Branch? && u.node == n && Plug(q, u) == Plug(p, t)
    decreases t
  {
    if t.node == n {
      q, u := p, t;
    } else if n in Nodes(t.left) {
      q, u := FocusOn(OnLeft(p, t.node, t.red, t.right), t.left, n);
    } else {
      q, u := FocusOn(OnRight(p, t.node, t.red, t.left), t.right, n);
    }
  }

  // ---------- the node that follows ----------

  lemma RegroupAround(a: seq<Node>, b: seq<Node>, n: Node, c: seq<Node>, d: seq<Node>)
    ensures a + (b + [n] + c) + d == (a + b) + ([n] + (c + d))
  {
  }

  /** The successor of the focus's top node is what comes first after it. */
  lemma Follows(p: Path, t: Shape, s: seq<Node>, i: nat, next: Node?)
    requires t.Branch? && Distinct(Plug(p, t)) && s == Inorder(Plug(p, t)) && i < |s| && s[i] == t.node
    requires var b := Inorder(t.right) + After(p); next == if b == [] then null else b[0]
    ensures next == if i + 1 < |s| then s[i + 1] else null
  {
    InorderOfPlug(p, t);
    RegroupAround(Before(p), Inorder(t.left), t.node, Inorder(t.right), After(p));
    InorderDistinct(Plug(p, t));
    FollowsIn(s, Before(p) + Inorder(t.left), t.node, Inorder(t.right) + After(p), i);
  }

  lemma FollowsIn(s: seq<Node>, a: seq<Node>, n: Node, b: seq<Node>, i: nat)
    requires s == a + ([n] + b) && i < |s| && s[i] == n
    requires forall i, j :: 0 <= i < j < |s| ==> s[i] != s[j]
    ensures if b == [] then i + 1 == |s| else i + 1 < |s| && s[i + 1] == b[0]
  {
    assert s[|a|] == n;
  }

  // ---------- taking a node out of the sequence ----------

  lemma {:induction false} WithoutAt(a: seq<Node>, n: Node, b: seq<Node>)
    requires n !in a
    ensures Without(a + ([n] + b), n) == a + b
  {
    var s := a + ([n] + b);
    if a == [] {
      assert s == [n] + b;
    } else {
      assert s[1..] == a[1..] + ([n] + b);
      WithoutAt(a[1..], n, b);
    }
  }

  lemma WithoutMiddle(a: seq<Node>, n: Node, b: seq<Node>)
    requires n !in a
    ensures Without(a + [n] + b, n) == a + b
  {
    WithoutAt(a, n, b);
    assert a + [n] + b == a + ([n] + b);
  }

  lemma {:induction false} BeforeIsOnPath(p: Path, n: Node)
    ensures n in Before(p) || n in After(p) ==> n in PathNodes(p)
  {
    if !p.AtRoot? {
      BeforeIsOnPath(p.up, n);
      InorderNodes(p.other, n);
    }
  }

  lemma WithoutInside(a: seq<Node>, b: seq<Node>, n: Node, c: seq<Node>, d: seq<Node>)
    requires n !in a && n !in b
    ensures Without(a + (b + [n] + c) + d, n) == a + (b + c) + d
  {
    WithoutAt(a + b, n, c + d);
    Regroup(a, b, [n] + c, d);
    Regroup(a, b, c, d);
    assert b + [n] + c == b + ([n] + c);
    assert [n] + c + d == [n] + (c + d);
  }

  /** What becomes of the sequence when `t` is replaced by a tree that lacks just its top node. */
  lemma TopTakenOut(p: Path, t: Shape, u: Shape)
    requires t.Branch? && Distinct(t) && PathNodes(p) !! Nodes(t)
    requires Inorder(u) == Inorder(t.left) + Inorder(t.right)
    ensures Inorder(Plug(p, u)) == Without(Inorder(Plug(p, t)), t.node)
  {
    InorderOfPlug(p, t);
    InorderOfPlug(p, u);
    BeforeIsOnPath(p, t.node);
    InorderNodes(t.left, t.node);
    WithoutInside(Before(p), Inorder(t.left), t.node, Inorder(t.right), After(p));
  }

  /** A way down that always goes left. */
  ghost predicate AllLeft(p: Path)
    decreases p
  {
    p.AtRoot? || (p.OnLeft? && AllLeft(p.up))
  }

  lemma {:induction false} NothingBefore(p: Path)
    requires AllLeft(p)
    ensures Before(p) == []
    decreases p
  {
    if !p.AtRoot? {
      NothingBefore(p.up);
    }
  }

  lemma RegroupHead(a: seq<Node>, n: Node, c: seq<Node>, d: seq<Node>)
    ensures a + [n] + ([] + c + d) == a + ([] + ([] + [n] + c) + d)
  {
  }

  /** Putting the leftmost node `u.node` of the right side in the place of `t.node` takes just `t.node` out. */
  lemma SuccessorTakesOver(t: Shape, inner: Path, u: Shape)
    requires t.Branch? && AllLeft(inner) && u.Branch? && u.left.Leaf? && t.right == Plug(inner, u)
    ensures Inorder(Branch(t.left, u.node, t.red, Plug(inner, u.right))) == Inorder(t.left) + Inorder(t.right)
  {
    NothingBefore(inner);
    InorderOfPlug(inner, u);
    InorderOfPlug(inner, u.right);
    RegroupHead(Inorder(t.left), u.node, Inorder(u.right), After(inner));
  }

  // ---------- red-black ----------

  ghost predicate IsRed(t: Shape) {
    t.Branch? && t.red
  }

  /** Black nodes on the leftmost way down. */
  ghost function BlackHeight(t: Shape): nat {
    match t
    case Leaf => 0
    case Branch(l, _, red, _) => BlackHeight(l) + if red then 0 else 1
  }

  /** No red node has a red child, and the two sides of every node have one black height. */
  ghost predicate Balanced(t: Shape) {
    match t
    case Leaf => true
    case Branch(l, _, red, r) =>
      && Balanced(l) && Balanced(r) && BlackHeight(l) == BlackHeight(r)
      && (red ==> !IsRed(l) && !IsRed(r))
  }

  ghost predicate RedBlack(t: Shape) {
    Balanced(t) && !IsRed(t)
  }

  ghost predicate ParentIsRed(p: Path) {
    !p.AtRoot? && p.red
  }

  /**
    Everything around the focus is in order, provided the focus is given a balanced
    subtree of black height `h`, black if its parent is red.
   */
  ghost predicate Accepts(p: Path, h: nat)
    decreases p
  {
    match p
    case AtRoot => true
    case OnLeft(up, _, red, s) =>
      && Balanced(s) && BlackHeight(s) == h && Accepts(up, if red then h else h + 1)
      && (red ==> !IsRed(s) && !up.AtRoot? && !up.red)
    case OnRight(up, _, red, s) =>
      && Balanced(s) && BlackHeight(s) == h && Accepts(up, if red then h else h + 1)
      && (red ==> !IsRed(s) && !up.AtRoot? && !up.red)
  }

  lemma {:induction false} PlugRedBlack(p: Path, t: Shape)
    requires Balanced(t) && Accepts(p, BlackHeight(t))
    requires IsRed(t) ==> !p.AtRoot? && !p.red
    ensures RedBlack(Plug(p, t))
    decreases p
  {
    match p
    case AtRoot =>
    case OnLeft(up, n, red, s) => PlugRedBlack(up, Branch(t, n, red, s));
    case OnRight(up, n, red, s) => PlugRedBlack(up, Branch(s, n, red, t));
  }

  /** Which node a frame holds does not matter to the balance. */
  lemma {:induction false} AcceptsRenamed(inner: Path, p: Path, n: Node, m: Node, red: bool, s: Shape, h: nat)
    requires Accepts(Extend(OnRight(p, n, red, s), inner), h)
    ensures Accepts(Extend(OnRight(p, m, red, s), inner), h)
    ensures ParentIsRed(Extend(OnRight(p, m, red, s), inner)) == ParentIsRed(Extend(OnRight(p, n, red, s), inner))
    decreases inner
  {
    if !inner.AtRoot? {
      AcceptsRenamed(inner.up, p, n, m, red, s, if inner.red then h else h + 1);
    }
  }

  lemma {:induction false} UnplugRedBlack(p: Path, t: Shape)
    requires RedBlack(Plug(p, t))
    ensures Balanced(t) && Accepts(p, BlackHeight(t))
    ensures IsRed(t) ==> !p.AtRoot? && !p.red
    decreases p
  {
    match p
    case AtRoot =>
    case OnLeft(up, n, red, s) => UnplugRedBlack(up, Branch(t, n, red, s));
    case OnRight(up, n, red, s) => UnplugRedBlack(up, Branch(s, n, red, t));
  }

  /** A path grafted under another accepts what its two parts accept. */
  lemma {:induction false} ExtendPlug(outer: Path, inner: Path, t: Shape)
    ensures Plug(Extend(outer, inner), t) == Plug(outer, Plug(inner, t))
    decreases inner
  {
    match inner
    case AtRoot =>
    case OnLeft(up, n, red, s) => ExtendPlug(outer, up, Branch(t, n, red, s));
    case OnRight(up, n, red, s) => ExtendPlug(outer, up, Branch(s, n, red, t));
  }

  // ---------- what balance buys ----------

  ghost function Height(t: Shape): nat {
    match t
    case Leaf => 0
    case Branch(l, _, _, r) => 1 + if Height(l) > Height(r) then Height(l) else Height(r)
  }

  /** The colours met on the way down to each missing child, one entry for each way. */
  ghost function Ways(t: Shape): set<seq<bool>> {
    match t
    case Leaf => {[]}
    case Branch(l, _, red, r) => set w | w in Ways(l) + Ways(r) :: [red] + w
  }

  ghost function Blacks(w: seq<bool>): nat {
    if w == [] then 0 else (if w[0] then 0 else 1) + Blacks(w[1..])
  }

  /** `Balanced` says what is wanted of every way from the root down to a missing child. */
  lemma {:induction false} BalancedMeansEveryWay(t: Shape, w: seq<bool>)
    requires Balanced(t) && w in Ways(t)
    ensures Blacks(w) == BlackHeight(t)
    ensures forall i :: 0 <= i < |w| - 1 && w[i] ==> !w[i + 1]
  {
    if t.Branch? {
      var v :| v in Ways(t.left) + Ways(t.right) && w == [t.red] + v;
      assert w[1..] == v;
      var s := if v in Ways(t.left) then t.left else t.right;
      BalancedMeansEveryWay(s, v);
      if t.red && v != [] {
        var u :| u in Ways(s.left) + Ways(s.right) && v == [s.red] + u;
      }
    }
  }

  lemma {:induction false} SomeWay(t: Shape) returns (w: seq<bool>)
    ensures w in Ways(t) && (IsRed(t) ==> w != [] && w[0])
  {
    if t.Leaf? {
      w := [];
    } else {
      var v := SomeWay(t.left);
      w := [t.red] + v;
      assert v in Ways(t.left) + Ways(t.right);
    }
  }

  /** `h` black nodes, and no two red ones in a row. */
  ghost predicate GoodWay(w: seq<bool>, h: int) {
    Blacks(w) == h && forall i :: 0 <= i < |w| - 1 && w[i] ==> !w[i + 1]
  }

  ghost predicate AllWaysGood(t: Shape, h: int) {
    forall w :: w in Ways(t) ==> GoodWay(w, h)
  }

  lemma WayDown(t: Shape, s: Shape, v: seq<bool>)
    requires t.Branch? && (s == t.left || s == t.right) && v in Ways(s)
    ensures [t.red] + v in Ways(t)
    ensures forall h: int :: GoodWay([t.red] + v, h) ==> GoodWay(v, if t.red then h else h - 1)
    ensures forall h: int :: GoodWay([t.red] + v, h) && t.red && v != [] ==> !v[0]
  {
    var w := [t.red] + v;
    assert v in Ways(t.left) + Ways(t.right);
    assert w[1..] == v;
    forall h: int | GoodWay(w, h) ensures GoodWay(v, if t.red then h else h - 1) && (t.red && v != [] ==> !v[0]) {
      forall i | 0 <= i < |v| - 1 && v[i] ensures !v[i + 1] {
        assert w[i + 1] == v[i] && w[i + 2] == v[i + 1];
      }
      if t.red && v != [] {
        assert w[0] && !w[0 + 1];
      }
    }
  }

  /** And nothing less. */
  lemma {:induction false} EveryWayMeansBalanced(t: Shape, h: int)
    requires AllWaysGood(t, h)
    ensures Balanced(t) && BlackHeight(t) == h
  {
    if t.Leaf? {
      assert [] in Ways(t);
    } else {
      var below := if t.red then h else h - 1;
      forall v | v in Ways(t.left) ensures GoodWay(v, below) && (t.red && v != [] ==> !v[0]) {
        WayDown(t, t.left, v);
      }
      forall v | v in Ways(t.right) ensures GoodWay(v, below) && (t.red && v != [] ==> !v[0]) {
        WayDown(t, t.right, v);
      }
      EveryWayMeansBalanced(t.left, below);
      EveryWayMeansBalanced(t.right, below);
      var a := SomeWay(t.left);
      var b := SomeWay(t.right);
    }
  }

  /** `Balanced` is what is wanted of every way from the root down to a missing child. */
  lemma BalancedIff(t: Shape)
    ensures Balanced(t) <==> exists h :: AllWaysGood(t, h)
  {
    if Balanced(t) {
      forall w | w in Ways(t) ensures GoodWay(w, BlackHeight(t)) {
        BalancedMeansEveryWay(t, w);
      }
      assert AllWaysGood(t, BlackHeight(t));
    } else if h :| AllWaysGood(t, h) {
      EveryWayMeansBalanced(t, h);
    }
  }

  lemma {:induction false} SizeOfBalanced(t: Shape)
    requires Balanced(t)
    ensures Pow2(BlackHeight(t)) <= |Inorder(t)| + 1
    ensures Height(t) <= 2 * BlackHeight(t) + if IsRed(t) then 1 else 0
  {
    if t.Branch? {
      SizeOfBalanced(t.left);
      SizeOfBalanced(t.right);
    }
  }

  lemma {:induction false} Pow2Grows(a: nat, b: nat)
    requires a <= b
    ensures Pow2(a) <= Pow2(b)
  {
    if a < b {
      Pow2Grows(a, b - 1);
    }
  }

  lemma SquareGrows(a: nat, b: nat)
    requires a <= b
    ensures a * a <= b * b
  {
    assert a * a <= a * b <= b * b;
  }

  /** height <= 2 * log2(n + 1), with the logarithm moved to the other side. */
  lemma HeightBound(t: Shape)
    requires RedBlack(t)
    ensures Pow2(Height(t)) <= (|Inorder(t)| + 1) * (|Inorder(t)| + 1)
  {
    SizeOfBalanced(t);
    var h := BlackHeight(t);
    Pow2Grows(Height(t), h + h);
    Pow2Sum(h, h);
    SquareGrows(Pow2(h), |Inorder(t)| + 1);
  }
}

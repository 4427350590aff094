/**
  The red-black tree as the program keeps it: nodes with left, right and parent pointers
  and a colour, rebalanced in place.  Every method says what it does to the shape that
  the pointers draw.
 */
module RbTree {
  import opened Common
  import opened RbShape

  /** What the four fields of a node hold. */
  datatype Fields = Fields(left: Node?, right: Node?, parent: Node?, red: bool)

  /** The fields that node `x` of `t` has when `t` is drawn below `p`. */
  ghost function Drawn(t: Shape, p: Node?, x: Node): Fields
    requires x in Nodes(t)
  {
    if x == t.node then Fields(Top(t.left), Top(t.right), p, t.red)
    else if x in Nodes(t.left) then Drawn(t.left, t.node, x)
    else Drawn(t.right, t.node, x)
  }

  /** The fields that node `x` of `p` has when a subtree with top `h` hangs below `p`. */
  ghost function DrawnPath(p: Path, h: Node?, x: Node): Fields
    requires x in PathNodes(p)
    decreases p
  {
    if x == p.node then
      if p.OnLeft? then Fields(h, Top(p.other), ParentOf(p.up), p.red)
      else Fields(Top(p.other), h, ParentOf(p.up), p.red)
    else if x in Nodes(p.other) then Drawn(p.other, p.node, x)
    else DrawnPath(p.up, p.node, x)
  }

  /** The root node, when the top of the focus is `h`. */
  ghost function RootOf(p: Path, h: Node?): Node?
    decreases p
  {
    if p.AtRoot? then h else RootOf(p.up, p.node)
  }

  lemma {:induction false} RootOnPath(p: Path, h: Node?)
    requires !p.AtRoot?
    ensures RootOf(p, h) != null && RootOf(p, h) in PathNodes(p)
    decreases p
  {
    if !p.up.AtRoot? {
      RootOnPath(p.up, p.node);
    }
  }

  ghost predicate Holds(x: Node, f: Fields)
    reads x
  {
    x.left == f.left && x.right == f.right && x.parent == f.parent && x.red == f.red
  }

  // ---------- how the drawing changes, one step at a time ----------

  lemma DrawnBranch(t: Shape, p: Node?)
    requires t.Branch? && Distinct(t)
    ensures forall x :: x in Nodes(t.left) ==> x in Nodes(t) && Drawn(t, p, x) == Drawn(t.left, t.node, x)
    ensures forall x :: x in Nodes(t.right) ==> x in Nodes(t) && Drawn(t, p, x) == Drawn(t.right, t.node, x)
    ensures Drawn(t, p, t.node) == Fields(Top(t.left), Top(t.right), p, t.red)
  {
  }

  /** Hanging a subtree elsewhere changes the parent of its top node only. */
  lemma DrawnElsewhere(t: Shape, p: Node?, q: Node?)
    ensures forall x :: x in Nodes(t) ==>
      Drawn(t, q, x) == if x == t.node then Drawn(t, p, x).(parent := q) else Drawn(t, p, x)
  {
  }

  /** Hanging another subtree below a path changes one link of its lowest node. */
  lemma DrawnPathElsewhere(p: Path, h: Node?, k: Node?)
    ensures forall x :: x in PathNodes(p) ==>
      DrawnPath(p, k, x) ==
      if x != p.node then DrawnPath(p, h, x)
      else if p.OnLeft? then DrawnPath(p, h, x).(left := k)
      else DrawnPath(p, h, x).(right := k)
    ensures !p.AtRoot? ==> RootOf(p, h) == RootOf(p, k)
  {
  }

  ghost function LeftRotated(t: Shape): Shape
    requires t.Branch? && t.right.Branch?
  {
    Branch(Branch(t.left, t.node, t.red, t.right.left), t.right.node, t.right.red, t.right.right)
  }

  ghost function RightRotated(t: Shape): Shape
    requires t.Branch? && t.left.Branch?
  {
    Branch(t.left.left, t.left.node, t.left.red, Branch(t.left.right, t.node, t.red, t.right))
  }

  /** A left rotation redraws the two nodes it turns and the parent link of the subtree in between. */
  lemma LeftRotatedDrawn(t: Shape, q: Node?)
    requires t.Branch? && t.right.Branch? && Distinct(t)
    ensures Distinct(LeftRotated(t)) && Nodes(LeftRotated(t)) == Nodes(t)
    ensures t.right.left.Branch? ==> t.right.left.node in Nodes(t)
    ensures t.node in Nodes(t) && t.right.node in Nodes(t) && t.right.node != t.node
    ensures Drawn(t, q, t.right.node).left == Top(t.right.left)
    ensures forall x :: x in Nodes(t) ==>
      Drawn(LeftRotated(t), q, x) ==
      if x == t.node then Drawn(t, q, x).(right := Top(t.right.left), parent := t.right.node)
      else if x == t.right.node then Drawn(t, q, x).(left := t.node, parent := q)
      else if x == Top(t.right.left) then Drawn(t, q, x).(parent := t.node)
      else Drawn(t, q, x)
  {
    var u := LeftRotated(t);
    assert Nodes(u) == Nodes(t);
    assert Distinct(t.right) && Distinct(u.left) && Distinct(u);
    DrawnBranch(t, q);
    DrawnBranch(t.right, t.node);
    DrawnBranch(u, q);
    DrawnBranch(u.left, u.node);
    DrawnElsewhere(t.right.left, t.right.node, t.node);
  }

  lemma RightRotatedDrawn(t: Shape, q: Node?)
    requires t.Branch? && t.left.Branch? && Distinct(t)
    ensures Distinct(RightRotated(t)) && Nodes(RightRotated(t)) == Nodes(t)
    ensures t.left.right.Branch? ==> t.left.right.node in Nodes(t)
    ensures t.node in Nodes(t) && t.left.node in Nodes(t) && t.left.node != t.node
    ensures Drawn(t, q, t.left.node).right == Top(t.left.right)
    ensures forall x :: x in Nodes(t) ==>
      Drawn(RightRotated(t), q, x) ==
      if x == t.node then Drawn(t, q, x).(left := Top(t.left.right), parent := t.left.node)
      else if x == t.left.node then Drawn(t, q, x).(right := t.node, parent := q)
      else if x == Top(t.left.right) then Drawn(t, q, x).(parent := t.node)
      else Drawn(t, q, x)
  {
    var u := RightRotated(t);
    assert Nodes(u) == Nodes(t);
    assert Distinct(t.left) && Distinct(u.right) && Distinct(u);
    DrawnBranch(t, q);
    DrawnBranch(t.left, t.node);
    DrawnBranch(u, q);
    DrawnBranch(u.right, u.node);
    DrawnElsewhere(t.left.right, t.left.node, t.node);
  }

  ghost function Painted(t: Shape, red: bool): Shape
    requires t.Branch?
  {
    Branch(t.left, t.node, red, t.right)
  }

  ghost function KidPainted(t: Shape, n: Node, red: bool): Shape
    requires t.Branch? && (n == Top(t.left) || n == Top(t.right))
  {
    if n == Top(t.left) then Branch(Painted(t.left, red), t.node, t.red, t.right)
    else Branch(t.left, t.node, t.red, Painted(t.right, red))
  }

  lemma PaintedDrawn(t: Shape, q: Node?, red: bool)
    requires t.Branch?
    ensures Nodes(Painted(t, red)) == Nodes(t) && (Distinct(t) ==> Distinct(Painted(t, red)))
    ensures t.node in Nodes(t)
    ensures forall x :: x in Nodes(t) ==>
      Drawn(Painted(t, red), q, x) ==
      if x == t.node then Drawn(t, q, x).(red := red) else Drawn(t, q, x)
  {
  }

  // ---------- what a lift does on insertion ----------

  /** The tree at the grandparent after its left child, with a red child `n` of its own, was lifted. */
  ghost function LiftedLeft(t: Shape, n: Node): Shape
    requires t.Branch? && t.left.Branch? && (n == Top(t.left.left) || n == Top(t.left.right))
  {
    var kid := if n == Top(t.left.right) then LeftRotated(t.left) else t.left;
    RightRotated(Branch(Painted(kid, false), t.node, true, t.right))
  }

  ghost function LiftedRight(t: Shape, n: Node): Shape
    requires t.Branch? && t.right.Branch? && (n == Top(t.right.left) || n == Top(t.right.right))
  {
    var kid := if n == Top(t.right.left) then RightRotated(t.right) else t.right;
    LeftRotated(Branch(t.left, t.node, true, Painted(kid, false)))
  }

  ghost function PushedDown(t: Shape): Shape
    requires t.Branch? && t.left.Branch? && t.right.Branch?
  {
    Branch(Painted(t.left, false), t.node, true, Painted(t.right, false))
  }

  /** A black node whose red left child has the red child `n`, and nothing else is wrong. */
  ghost predicate ClashLeft(t: Shape, n: Node) {
    && t.Branch? && !t.red && Distinct(t) && t.left.Branch? && t.left.red
    && (n == Top(t.left.left) || n == Top(t.left.right))
    && (n == Top(t.left.left) ==> t.left.left.red && !IsRed(t.left.right))
    && (n == Top(t.left.right) ==> t.left.right.red && !IsRed(t.left.left))
    && Balanced(t.left.left) && Balanced(t.left.right) && BlackHeight(t.left.left) == BlackHeight(t.left.right)
    && Balanced(t.right) && BlackHeight(t.right) == BlackHeight(t.left)
  }

  ghost predicate ClashRight(t: Shape, n: Node) {
    && t.Branch? && !t.red && Distinct(t) && t.right.Branch? && t.right.red
    && (n == Top(t.right.left) || n == Top(t.right.right))
    && (n == Top(t.right.left) ==> t.right.left.red && !IsRed(t.right.right))
    && (n == Top(t.right.right) ==> t.right.right.red && !IsRed(t.right.left))
    && Balanced(t.right.left) && Balanced(t.right.right) && BlackHeight(t.right.left) == BlackHeight(t.right.right)
    && Balanced(t.left) && BlackHeight(t.left) == BlackHeight(t.right)
  }

  lemma RaisedDistinct(p: Path, t: Shape)
    requires !p.AtRoot? && Distinct(t) && DistinctPath(p) && PathNodes(p) !! Nodes(t)
    ensures var u := Raised(p, t);
      && Distinct(u) && DistinctPath(p.up) && PathNodes(p.up) !! Nodes(u)
      && PathNodes(p.up) + Nodes(u) == PathNodes(p) + Nodes(t)
    ensures t.Branch? ==> p.node !in Nodes(t) && Top(t) != Top(p.other)
  {
    var u := Raised(p, t);
    assert Nodes(u) == Nodes(t) + {p.node} + Nodes(p.other);
  }

  /** A red focus below a red node is a clash two steps up. */
  lemma ClashAbove(p: Path, t: Shape)
    requires IsRed(t) && Balanced(t) && ParentIsRed(p) && Accepts(p, BlackHeight(t))
    requires Distinct(t) && DistinctPath(p) && PathNodes(p) !! Nodes(t)
    ensures !p.up.AtRoot?
    ensures var tg := Raised(p.up, Raised(p, t));
      && Accepts(p.up.up, BlackHeight(tg)) && PathNodes(p) + Nodes(t) == PathNodes(p.up.up) + Nodes(tg)
      && (p.up.OnLeft? ==> ClashLeft(tg, t.node))
      && (p.up.OnRight? ==> ClashRight(tg, t.node) && Top(tg.left) != p.node)
  {
    RaisedDistinct(p, t);
    RaisedDistinct(p.up, Raised(p, t));
  }

  lemma LiftedLeftBalanced(t: Shape, n: Node)
    requires ClashLeft(t, n) && !IsRed(t.right)
    ensures var u := LiftedLeft(t, n);
      && Balanced(u) && !u.red && BlackHeight(u) == BlackHeight(t)
      && u.left.Branch? && u.left.red && Nodes(u) == Nodes(t) && Inorder(u) == Inorder(t)
      && u.left.node == (if n == Top(t.left.right) then t.left.node else n)
  {
    assert Distinct(t.left);
    var kid := if n == Top(t.left.right) then LeftRotated(t.left) else t.left;
    LeftRotatedSame(t.left);
    RightRotatedSame(Branch(Painted(kid, false), t.node, true, t.right));
  }

  lemma LiftedRightBalanced(t: Shape, n: Node)
    requires ClashRight(t, n) && !IsRed(t.left)
    ensures var u := LiftedRight(t, n);
      && Balanced(u) && !u.red && BlackHeight(u) == BlackHeight(t)
      && u.right.Branch? && u.right.red && Nodes(u) == Nodes(t) && Inorder(u) == Inorder(t)
      && u.right.node == (if n == Top(t.right.left) then t.right.node else n)
  {
    assert Distinct(t.right);
    var kid := if n == Top(t.right.left) then RightRotated(t.right) else t.right;
    RightRotatedSame(t.right);
    LeftRotatedSame(Branch(t.left, t.node, true, Painted(kid, false)));
  }

  lemma PushedDownBalanced(t: Shape, n: Node)
    requires ClashLeft(t, n) || ClashRight(t, n)
    requires IsRed(t.left) && IsRed(t.right)
    ensures var u := PushedDown(t);
      Balanced(u) && BlackHeight(u) == BlackHeight(t) && Nodes(u) == Nodes(t) && Inorder(u) == Inorder(t)
  {
  }

  /**
    What one round of `InsertColor` leaves of a clash at `t` below `p`: either the clash
    is gone, or `t` itself is now the red node to look at.
   */
  ghost predicate Settled(p: Path, t: Shape, q: Path, u: Shape) {
    && IsRed(u) && PathNodes(q) + Nodes(u) == PathNodes(p) + Nodes(t)
    && Balanced(u) && Accepts(q, BlackHeight(u)) && Inorder(Plug(q, u)) == Inorder(Plug(p, t))
    && (ParentIsRed(q) ==> q == p)
  }

  lemma PushedDownSettles(p: Path, t: Shape, n: Node)
    requires ClashLeft(t, n) || ClashRight(t, n)
    requires IsRed(t.left) && IsRed(t.right) && Accepts(p, BlackHeight(t))
    ensures Settled(p, t, p, PushedDown(t))
  {
    PushedDownBalanced(t, n);
    Reshaped(p, t, PushedDown(t));
  }

  lemma LiftedLeftSettles(p: Path, t: Shape, n: Node)
    requires ClashLeft(t, n) && !IsRed(t.right) && Accepts(p, BlackHeight(t))
    ensures var v := LiftedLeft(t, n);
      && v.Branch? && v.left.Branch? && Settled(p, t, OnLeft(p, v.node, v.red, v.right), v.left)
      && v.left.node == (if n == Top(t.left.right) then t.left.node else n)
  {
    LiftedLeftBalanced(t, n);
    Reshaped(p, t, LiftedLeft(t, n));
  }

  lemma LiftedRightSettles(p: Path, t: Shape, n: Node)
    requires ClashRight(t, n) && !IsRed(t.left) && Accepts(p, BlackHeight(t))
    ensures var v := LiftedRight(t, n);
      && v.Branch? && v.right.Branch? && Settled(p, t, OnRight(p, v.node, v.red, v.left), v.right)
      && v.right.node == (if n == Top(t.right.left) then t.right.node else n)
  {
    LiftedRightBalanced(t, n);
    Reshaped(p, t, LiftedRight(t, n));
  }

  lemma RegroupRotated(a: seq<Node>, n: Node, b: seq<Node>, m: Node, c: seq<Node>)
    ensures (a + [n] + b) + [m] + c == a + [n] + (b + [m] + c)
  {
  }

  lemma LeftRotatedSame(t: Shape)
    requires t.Branch?
    ensures t.right.Branch? ==> Inorder(LeftRotated(t)) == Inorder(t) && Nodes(LeftRotated(t)) == Nodes(t)
  {
    if t.right.Branch? {
      RegroupRotated(Inorder(t.left), t.node, Inorder(t.right.left), t.right.node, Inorder(t.right.right));
    }
  }

  lemma RightRotatedSame(t: Shape)
    requires t.Branch?
    ensures t.left.Branch? ==> Inorder(RightRotated(t)) == Inorder(t) && Nodes(RightRotated(t)) == Nodes(t)
  {
    if t.left.Branch? {
      RegroupRotated(Inorder(t.left.left), t.left.node, Inorder(t.left.right), t.node, Inorder(t.right));
    }
  }

  // ---------- what a repair does on erasure ----------

  /** The left subtree is one black node short; all else below `t` is well. */
  ghost predicate ShortLeft(t: Shape) {
    && t.Branch? && Distinct(t) && Balanced(t.left) && !IsRed(t.left) && Balanced(t.right)
    && BlackHeight(t.right) == BlackHeight(t.left) + 1 && (t.red ==> !IsRed(t.right))
  }

  ghost predicate ShortRight(t: Shape) {
    && t.Branch? && Distinct(t) && Balanced(t.right) && !IsRed(t.right) && Balanced(t.left)
    && BlackHeight(t.left) == BlackHeight(t.right) + 1 && (t.red ==> !IsRed(t.left))
  }

  /** The black height `t` should have, and has but for its short side. */
  ghost function DueLeft(t: Shape): nat
    requires t.Branch?
  {
    BlackHeight(t.left) + if t.red then 1 else 2
  }

  ghost function DueRight(t: Shape): nat
    requires t.Branch?
  {
    BlackHeight(t.right) + if t.red then 1 else 2
  }

  lemma ShortAbove(p: Path, t: Shape)
    requires !p.AtRoot? && Balanced(t) && !IsRed(t) && Accepts(p, BlackHeight(t) + 1)
    requires Distinct(t) && DistinctPath(p) && PathNodes(p) !! Nodes(t)
    ensures PathNodes(p) + Nodes(t) == PathNodes(p.up) + Nodes(Raised(p, t))
    ensures p.OnLeft? ==> ShortLeft(Raised(p, t)) && Accepts(p.up, DueLeft(Raised(p, t)))
    ensures p.OnRight? ==> ShortRight(Raised(p, t)) && Accepts(p.up, DueRight(Raised(p, t)))
    ensures p.red ==> !p.up.AtRoot? && !p.up.red
    ensures p.OnRight? ==> Top(t) != Top(p.other)
  {
    RaisedDistinct(p, t);
  }

  /** A red sibling is first turned above the short side. */
  ghost function TurnedLeft(t: Shape): Shape
    requires t.Branch? && t.right.Branch?
  {
    LeftRotated(Branch(t.left, t.node, true, Painted(t.right, false)))
  }

  ghost function TurnedRight(t: Shape): Shape
    requires t.Branch? && t.left.Branch?
  {
    RightRotated(Branch(Painted(t.left, false), t.node, true, t.right))
  }

  lemma TurnedLeftShort(p: Path, t: Shape)
    requires ShortLeft(t) && IsRed(t.right) && Accepts(p, DueLeft(t))
    ensures var u := TurnedLeft(t);
      && u.left.Branch? && ShortLeft(u.left) && !IsRed(u.left.right) && u.left.red && !u.red
      && Accepts(OnLeft(p, u.node, u.red, u.right), DueLeft(u.left))
      && Nodes(u) == Nodes(t) && Inorder(Plug(p, u)) == Inorder(Plug(p, t))
  {
    assert Distinct(t.right) && Nodes(t.right) == Nodes(Painted(t.right, false));
    LeftRotatedSame(Branch(t.left, t.node, true, Painted(t.right, false)));
    LeftRotatedDrawn(Branch(t.left, t.node, true, Painted(t.right, false)), null);
    Reshaped(p, t, TurnedLeft(t));
  }

  lemma TurnedRightShort(p: Path, t: Shape)
    requires ShortRight(t) && IsRed(t.left) && Accepts(p, DueRight(t))
    ensures var u := TurnedRight(t);
      && u.right.Branch? && ShortRight(u.right) && !IsRed(u.right.left) && u.right.red && !u.red
      && Accepts(OnRight(p, u.node, u.red, u.left), DueRight(u.right))
      && Nodes(u) == Nodes(t) && Inorder(Plug(p, u)) == Inorder(Plug(p, t))
  {
    assert Distinct(t.left) && Nodes(t.left) == Nodes(Painted(t.left, false));
    RightRotatedSame(Branch(Painted(t.left, false), t.node, true, t.right));
    RightRotatedDrawn(Branch(Painted(t.left, false), t.node, true, t.right), null);
    Reshaped(p, t, TurnedRight(t));
  }

  /** The sibling, made to have a red child on its far side. */
  ghost function FarRed(s: Shape): Shape
    requires s.Branch? && (IsRed(s.left) || IsRed(s.right))
  {
    if IsRed(s.right) then s else RightRotated(Branch(Painted(s.left, false), s.node, true, s.right))
  }

  ghost function FarRedMirrored(s: Shape): Shape
    requires s.Branch? && (IsRed(s.left) || IsRed(s.right))
  {
    if IsRed(s.left) then s else LeftRotated(Branch(s.left, s.node, true, Painted(s.right, false)))
  }

  /** A red nephew pays for the missing black node. */
  ghost function RepairedLeft(t: Shape): Shape
    requires t.Branch? && t.right.Branch? && (IsRed(t.right.left) || IsRed(t.right.right))
  {
    var s := FarRed(t.right);
    LeftRotated(Branch(t.left, t.node, false, Branch(s.left, s.node, t.red, Painted(s.right, false))))
  }

  ghost function RepairedRight(t: Shape): Shape
    requires t.Branch? && t.left.Branch? && (IsRed(t.left.left) || IsRed(t.left.right))
  {
    var s := FarRedMirrored(t.left);
    RightRotated(Branch(Branch(Painted(s.left, false), s.node, t.red, s.right), t.node, false, t.right))
  }

  /** Balance after a rotation, in terms of the three subtrees that are moved whole. */
  lemma RightRotatedBalance(t: Shape)
    requires t.Branch? && t.left.Branch?
    requires Balanced(t.left.left) && Balanced(t.left.right) && Balanced(t.right)
    requires BlackHeight(t.left.right) == BlackHeight(t.right)
    requires BlackHeight(t.left.left) == BlackHeight(t.right) + if t.red then 0 else 1
    requires t.red ==> !IsRed(t.left.right) && !IsRed(t.right)
    requires t.left.red ==> !IsRed(t.left.left) && !t.red
    ensures Balanced(RightRotated(t))
    ensures BlackHeight(RightRotated(t)) == BlackHeight(t.left.left) + if t.left.red then 0 else 1
  {
    assert Balanced(RightRotated(t).right);
  }

  lemma LeftRotatedBalance(t: Shape)
    requires t.Branch? && t.right.Branch?
    requires Balanced(t.right.left) && Balanced(t.right.right) && Balanced(t.left)
    requires BlackHeight(t.right.left) == BlackHeight(t.left)
    requires BlackHeight(t.right.right) == BlackHeight(t.left) + if t.red then 0 else 1
    requires t.red ==> !IsRed(t.right.left) && !IsRed(t.left)
    requires t.right.red ==> !IsRed(t.right.right) && !t.red
    ensures Balanced(LeftRotated(t))
    ensures BlackHeight(LeftRotated(t)) == BlackHeight(t.right.right) + if t.right.red then 0 else 1
  {
    assert Balanced(LeftRotated(t).left);
  }

  lemma FarRedBalanced(s: Shape)
    requires RedBlack(s) && s.Branch? && (IsRed(s.left) || IsRed(s.right))
    ensures var f := FarRed(s);
      RedBlack(f) && IsRed(f.right) && BlackHeight(f) == BlackHeight(s)
        && Nodes(f) == Nodes(s) && Inorder(f) == Inorder(s)
  {
    if !IsRed(s.right) {
      var v := Branch(Painted(s.left, false), s.node, true, s.right);
      assert Balanced(s.left);
      RightRotatedBalance(v);
      RightRotatedSame(v);
    }
  }

  lemma FarRedMirroredBalanced(s: Shape)
    requires RedBlack(s) && s.Branch? && (IsRed(s.left) || IsRed(s.right))
    ensures var f := FarRedMirrored(s);
      RedBlack(f) && IsRed(f.left) && BlackHeight(f) == BlackHeight(s)
        && Nodes(f) == Nodes(s) && Inorder(f) == Inorder(s)
  {
    if !IsRed(s.left) {
      var v := Branch(s.left, s.node, true, Painted(s.right, false));
      assert Balanced(s.right);
      LeftRotatedBalance(v);
      LeftRotatedSame(v);
    }
  }

  lemma RepairedLeftBalanced(p: Path, t: Shape)
    requires ShortLeft(t) && t.right.Branch? && !t.right.red && (IsRed(t.right.left) || IsRed(t.right.right))
    ensures var u := RepairedLeft(t);
      && Balanced(u) && BlackHeight(u) == DueLeft(t) && u.red == t.red
      && Nodes(u) == Nodes(t) && Inorder(Plug(p, u)) == Inorder(Plug(p, t))
  {
    FarRedBalanced(t.right);
    var s := FarRed(t.right);
    var v := Branch(t.left, t.node, false, Branch(s.left, s.node, t.red, Painted(s.right, false)));
    LeftRotatedSame(v);
    assert Inorder(v.right) == Inorder(s) && Balanced(s.right);
    LeftRotatedBalance(v);
    Reshaped(p, t, RepairedLeft(t));
  }

  lemma RepairedRightBalanced(p: Path, t: Shape)
    requires ShortRight(t) && t.left.Branch? && !t.left.red && (IsRed(t.left.left) || IsRed(t.left.right))
    ensures var u := RepairedRight(t);
      && Balanced(u) && BlackHeight(u) == DueRight(t) && u.red == t.red
      && Nodes(u) == Nodes(t) && Inorder(Plug(p, u)) == Inorder(Plug(p, t))
  {
    FarRedMirroredBalanced(t.left);
    var s := FarRedMirrored(t.left);
    var v := Branch(Branch(Painted(s.left, false), s.node, t.red, s.right), t.node, false, t.right);
    RightRotatedSame(v);
    assert Inorder(v.left) == Inorder(s) && Balanced(s.left);
    RightRotatedBalance(v);
    Reshaped(p, t, RepairedRight(t));
  }

  /** With no red nephew the sibling turns red and the whole subtree is short. */
  lemma PassedUpLeft(p: Path, t: Shape)
    requires ShortLeft(t) && t.right.Branch? && !t.right.red && !IsRed(t.right.left) && !IsRed(t.right.right)
    ensures var u := Branch(t.left, t.node, t.red, Painted(t.right, true));
      && Balanced(Painted(u, false)) && BlackHeight(u) + 1 == DueLeft(t)
      && Nodes(u) == Nodes(t) && Inorder(Plug(p, u)) == Inorder(Plug(p, t))
  {
    Reshaped(p, t, Branch(t.left, t.node, t.red, Painted(t.right, true)));
  }

  /** With no red nephew the sibling turns red and the whole subtree is short. */
  lemma PassedUpRight(p: Path, t: Shape)
    requires ShortRight(t) && t.left.Branch? && !t.left.red && !IsRed(t.left.right) && !IsRed(t.left.left)
    ensures var u := Branch(Painted(t.left, true), t.node, t.red, t.right);
      && Balanced(Painted(u, false)) && BlackHeight(u) + 1 == DueRight(t)
      && Nodes(u) == Nodes(t) && Inorder(Plug(p, u)) == Inorder(Plug(p, t))
  {
    Reshaped(p, t, Branch(Painted(t.left, true), t.node, t.red, t.right));
  }

  // ---------- what erasure does to a drawing ----------

  /** Another node in the place of the top one. */
  ghost function TopReplaced(t: Shape, y: Node): Shape
    requires t.Branch?
  {
    Branch(t.left, y, t.red, t.right)
  }

  lemma TopReplacedDrawn(t: Shape, q: Node?, y: Node)
    requires t.Branch? && t.left.Branch? && Distinct(t) && y !in Nodes(t)
    ensures Distinct(TopReplaced(t, y)) && Nodes(TopReplaced(t, y)) == Nodes(t) - {t.node} + {y}
    ensures t.node in Nodes(t) && t.left.node in Nodes(t) && (t.right.Branch? ==> t.right.node in Nodes(t))
    ensures t.left.node != t.node && t.left.node != Top(t.right) && Top(t.right) != t.node
    ensures Drawn(t, q, t.node) == Fields(t.left.node, Top(t.right), q, t.red)
    ensures forall x :: x in Nodes(TopReplaced(t, y)) ==>
      Drawn(TopReplaced(t, y), q, x) ==
      if x == y then Fields(t.left.node, Top(t.right), q, t.red)
      else if x == t.left.node || x == Top(t.right) then Drawn(t, q, x).(parent := y)
      else Drawn(t, q, x)
  {
    var u := TopReplaced(t, y);
    assert Nodes(u) == Nodes(t.left) + {y} + Nodes(t.right);
    assert Nodes(t) == Nodes(t.left) + {t.node} + Nodes(t.right);
    DrawnBranch(t, q);
    DrawnBranch(u, q);
    DrawnElsewhere(t.left, t.node, y);
    DrawnElsewhere(t.right, t.node, y);
  }

  /** The only subtree of a node, hung where the node hangs. */
  lemma OnlyKidDrawn(t: Shape, q: Node?, rest: Shape)
    requires t.Branch? && Distinct(t)
    requires (t.left.Leaf? && rest == t.right) || (t.right.Leaf? && rest == t.left)
    ensures Nodes(rest) == Nodes(t) - {t.node} && Distinct(rest) && Top(rest) != t.node
    ensures forall x :: x in Nodes(rest) ==>
      Drawn(rest, q, x) == if x == Top(rest) then Drawn(t, q, x).(parent := q) else Drawn(t, q, x)
  {
    assert Nodes(t) == Nodes(t.left) + {t.node} + Nodes(t.right);
    assert rest.Branch? ==> rest.node in Nodes(rest);
    DrawnBranch(t, q);
    DrawnElsewhere(rest, t.node, q);
  }

  lemma WithoutTop(p: set<Node>, l: set<Node>, n: Node, i: set<Node>, y: Node, r: set<Node>)
    requires n !in p && n !in l && n !in i && n !in r && n != y
    ensures p + {y} + l + i + r == p + (l + {n} + (i + ({y} + r))) - {n}
  {
  }

  /** The successor `u.node` of `t.node` is a node of `t`, and its own node. */
  lemma SuccessorIsApart(p: Path, t: Shape, inner: Path, u: Shape)
    requires t.Branch? && Distinct(t) && PathNodes(p) !! Nodes(t)
    requires u.Branch? && u.left.Leaf? && Distinct(u) && t.right == Plug(inner, u)
    requires PathNodes(Extend(OnRight(p, t.node, t.red, t.left), inner)) !! Nodes(u)
    ensures u.node in Nodes(t) && u.node != t.node && u.node !in PathNodes(p)
    ensures u.node !in Nodes(t.left) + PathNodes(inner) + Nodes(u.right)
    ensures t.node !in PathNodes(p) + Nodes(t.left) + PathNodes(inner) + Nodes(u.right)
    ensures Nodes(t) == Nodes(t.left) + {t.node} + (PathNodes(inner) + ({u.node} + Nodes(u.right)))
  {
    NodesOfPlug(inner, u);
    NodesOfExtend(OnRight(p, t.node, t.red, t.left), inner);
    assert Nodes(u) == {u.node} + Nodes(u.right);
    assert u.node in Nodes(u) && u.node in Nodes(t.right);
  }

  /** The nodes around the successor of `t.node`, before and after it takes its place. */
  lemma SuccessorNodes(p: Path, t: Shape, inner: Path, u: Shape)
    requires t.Branch? && Distinct(t) && PathNodes(p) !! Nodes(t)
    requires u.Branch? && u.left.Leaf? && Distinct(u) && t.right == Plug(inner, u)
    requires PathNodes(Extend(OnRight(p, t.node, t.red, t.left), inner)) !! Nodes(u)
    ensures u.node in Nodes(t) && u.node != t.node && u.node !in PathNodes(p)
    ensures u.node !in Nodes(Branch(t.left, t.node, t.red, Plug(inner, u.right)))
    ensures !inner.AtRoot? ==> inner.node != t.node
    ensures PathNodes(Extend(OnRight(p, u.node, t.red, t.left), inner)) + Nodes(u.right)
      == PathNodes(p) + Nodes(t) - {t.node}
  {
    SuccessorIsApart(p, t, inner, u);
    NodesOfPlug(inner, u.right);
    NodesOfExtend(OnRight(p, u.node, t.red, t.left), inner);
    WithoutTop(PathNodes(p), Nodes(t.left), t.node, PathNodes(inner), u.node, Nodes(u.right));
  }

  lemma SuccessorAccepts(p: Path, t: Shape, inner: Path, u: Shape)
    requires t.Branch? && RedBlack(Plug(p, t)) && u.Branch? && u.left.Leaf? && t.right == Plug(inner, u)
    ensures Balanced(u.right) && (u.red ==> !IsRed(u.right))
    ensures Accepts(Extend(OnRight(p, u.node, t.red, t.left), inner), BlackHeight(u.right) + if u.red then 0 else 1)
  {
    var o := OnRight(p, t.node, t.red, t.left);
    ExtendPlug(o, inner, u);
    UnplugRedBlack(Extend(o, inner), u);
    AcceptsRenamed(inner, p, t.node, u.node, t.red, t.left, BlackHeight(u));
  }

  /** The tree in which the successor has taken over, seen from where the successor was. */
  lemma SuccessorBalance(p: Path, t: Shape, inner: Path, u: Shape)
    requires t.Branch? && Distinct(t) && PathNodes(p) !! Nodes(t) && RedBlack(Plug(p, t))
    requires u.Branch? && u.left.Leaf? && AllLeft(inner) && t.right == Plug(inner, u)
    ensures var q := Extend(OnRight(p, u.node, t.red, t.left), inner);
      && Inorder(Plug(q, u.right)) == Without(Inorder(Plug(p, t)), t.node)
      && Balanced(u.right) && Accepts(q, BlackHeight(u.right) + if u.red then 0 else 1)
      && (u.red ==> !IsRed(u.right))
  {
    SuccessorAccepts(p, t, inner, u);
    var o2 := OnRight(p, u.node, t.red, t.left);
    ExtendPlug(o2, inner, u.right);
    SuccessorTakesOver(t, inner, u);
    TopTakenOut(p, t, Branch(t.left, u.node, t.red, Plug(inner, u.right)));
  }

  /** Where the address of a new node is stored: the root, or one side of a parent. */
  datatype Link = RootLink | LeftLink(of: Node) | RightLink(of: Node)

  ghost function LinkOf(p: Path): Link {
    match p
    case AtRoot => RootLink
    case OnLeft(_, n, _, _) => LeftLink(n)
    case OnRight(_, n, _, _) => RightLink(n)
  }

  class Root {
    var node: Node?
    ghost var shape: Shape
    ghost var nodes: set<Node>

    /** The pointers draw the path `p`, and below it hangs the node `h`. */
    ghost predicate Above(p: Path, h: Node?)
      reads this, nodes
    {
      && PathNodes(p) <= nodes
      && node == RootOf(p, h)
      && forall x :: x in PathNodes(p) ==> x in nodes && Holds(x, DrawnPath(p, h, x))
    }

    /** The pointers draw `t` hanging under the node `q`. */
    ghost predicate Below(t: Shape, q: Node?)
      reads this, nodes
    {
      && Nodes(t) <= nodes
      && forall x :: x in Nodes(t) ==> x in nodes && Holds(x, Drawn(t, q, x))
    }

    /** The pointers draw `t` hanging under `p`, and no node is used twice. */
    ghost predicate At(p: Path, t: Shape)
      reads this, nodes
    {
      && Above(p, Top(t)) && Below(t, ParentOf(p))
      && DistinctPath(p) && Distinct(t) && PathNodes(p) !! Nodes(t)
    }

    ghost predicate Valid()
      reads this, nodes
    {
      At(AtRoot, shape) && RedBlack(shape) && nodes == Nodes(shape)
    }

    /** The nodes in order: what the tree stands for. */
    ghost function Contents(): seq<Node>
      reads this
    {
      Inorder(shape)
    }

    constructor ()
      ensures Valid() && Contents() == [] && shape == Leaf
    {
      node := null;
      shape := Leaf;
      nodes := {};
    }

    // ---------- moving the focus ----------

    /** One step up: the parent and the other subtree join the focus. */
    lemma StepUp(p: Path, t: Shape)
      requires At(p, t) && !p.AtRoot?
      ensures At(p.up, Raised(p, t))
    {
      var u := Raised(p, t);
      assert Distinct(u);
      DrawnBranch(u, ParentOf(p.up));
      assert Nodes(u) == Nodes(t) + {p.node} + Nodes(p.other);
      assert forall x :: x in Nodes(p.other) ==>
        x in PathNodes(p) && DrawnPath(p, Top(t), x) == Drawn(p.other, p.node, x);
      assert p.node in PathNodes(p) && Holds(p.node, DrawnPath(p, Top(t), p.node));
      assert Below(u, ParentOf(p.up));
      assert forall x :: x in PathNodes(p.up) ==>
        x in PathNodes(p) && DrawnPath(p, Top(t), x) == DrawnPath(p.up, p.node, x);
    }

    lemma StepDown(p: Path, t: Shape)
      requires !p.AtRoot?
      requires At(p.up, Raised(p, t))
      ensures At(p, t)
    {
      var u := Raised(p, t);
      DrawnBranch(u, ParentOf(p.up));
      assert Holds(p.node, Drawn(u, ParentOf(p.up), p.node));
      assert Below(t, p.node);
      assert forall x :: x in Nodes(p.other) ==> DrawnPath(p, Top(t), x) == Drawn(p.other, p.node, x);
      assert forall x :: x in PathNodes(p.up) ==> DrawnPath(p, Top(t), x) == DrawnPath(p.up, p.node, x);
    }

    lemma {:induction false} ZipUp(p: Path, inner: Path, t: Shape)
      requires At(Extend(p, inner), t)
      ensures At(p, Plug(inner, t))
      decreases inner
    {
      match inner
      case AtRoot =>
      case OnLeft(up, n, red, s) =>
        StepUp(Extend(p, inner), t);
        ZipUp(p, up, Branch(t, n, red, s));
      case OnRight(up, n, red, s) =>
        StepUp(Extend(p, inner), t);
        ZipUp(p, up, Branch(s, n, red, t));
    }

    lemma {:induction false} ZipDown(p: Path, inner: Path, t: Shape)
      requires At(p, Plug(inner, t))
      ensures At(Extend(p, inner), t)
      decreases inner
    {
      match inner
      case AtRoot =>
      case OnLeft(up, n, red, s) =>
        ZipDown(p, up, Branch(t, n, red, s));
        StepDown(Extend(p, inner), t);
      case OnRight(up, n, red, s) =>
        ZipDown(p, up, Branch(s, n, red, t));
        StepDown(Extend(p, inner), t);
    }

    lemma {:induction false} ExtendRoot(inner: Path)
      ensures Extend(AtRoot, inner) == inner
      decreases inner
    {
      if !inner.AtRoot? {
        ExtendRoot(inner.up);
      }
    }

    // ---------- rotations ----------

    /** The link that leads to the focus, held by its parent or by the root, is turned from `n` to `h`. */
    method Relink(parent: Node?, n: Node, h: Node?, ghost p: Path)
      requires Above(p, n) && DistinctPath(p) && parent == ParentOf(p)
      requires !p.AtRoot? ==> n != Top(p.other)
      modifies this`node, parent
      ensures Above(p, h)
    {
      DrawnPathElsewhere(p, n, h);
      if parent != null {
        if n == parent.left {
          parent.left := h;
        } else {
          parent.right := h;
        }
      } else {
        node := h;
      }
    }

    method TurnLeft(n: Node, right: Node, parent: Node?, ghost t: Shape)
      requires t.Branch? && t.node == n && t.right.Branch? && t.right.node == right
      requires Below(t, parent) && Distinct(t)
      modifies Nodes(t)
      ensures Below(LeftRotated(t), parent)
    {
      LeftRotatedDrawn(t, parent);
      assert Holds(right, Drawn(t, parent, right));
      n.right := right.left;
      if n.right != null {
        n.right.parent := n;
      }
      right.left := n;
      right.parent := parent;
      n.parent := right;
    }

    method TurnRight(n: Node, left: Node, parent: Node?, ghost t: Shape)
      requires t.Branch? && t.node == n && t.left.Branch? && t.left.node == left
      requires Below(t, parent) && Distinct(t)
      modifies Nodes(t)
      ensures Below(RightRotated(t), parent)
    {
      RightRotatedDrawn(t, parent);
      assert Holds(left, Drawn(t, parent, left));
      n.left := left.right;
      if n.left != null {
        n.left.parent := n;
      }
      left.right := n;
      left.parent := parent;
      n.parent := left;
    }

    method RotateLeft(n: Node, ghost p: Path, ghost t: Shape)
      requires At(p, t) && t.Branch? && t.node == n && t.right.Branch?
      modifies this`node, nodes
      ensures At(p, LeftRotated(t))
    {
      LeftRotatedDrawn(t, ParentOf(p));
      assert Holds(n, Drawn(t, ParentOf(p), n));
      var right := n.right;
      var parent := n.parent;
      assert parent == null || parent !in Nodes(t);
      TurnLeft(n, right, parent, t);
      Relink(parent, n, right, p);
    }

    method RotateRight(n: Node, ghost p: Path, ghost t: Shape)
      requires At(p, t) && t.Branch? && t.node == n && t.left.Branch?
      modifies this`node, nodes
      ensures At(p, RightRotated(t))
    {
      RightRotatedDrawn(t, ParentOf(p));
      assert Holds(n, Drawn(t, ParentOf(p), n));
      var left := n.left;
      var parent := n.parent;
      assert parent == null || parent !in Nodes(t);
      TurnRight(n, left, parent, t);
      Relink(parent, n, left, p);
    }

    // ---------- recolouring ----------

    method SetRed(n: Node, red: bool, ghost p: Path, ghost t: Shape)
      requires At(p, t) && t.Branch? && t.node == n
      modifies n`red
      ensures At(p, Painted(t, red))
    {
      PaintedDrawn(t, ParentOf(p), red);
      n.red := red;
    }

    /** Colour a child of the top of the focus. */
    method PaintKid(n: Node, red: bool, ghost p: Path, ghost t: Shape)
      requires At(p, t) && t.Branch? && (n == Top(t.left) || n == Top(t.right))
      modifies n`red
      ensures At(p, KidPainted(t, n, red))
    {
      ghost var u := KidPainted(t, n, red);
      if n == Top(t.left) {
        StepDown(OnLeft(p, t.node, t.red, t.right), t.left);
      } else {
        StepDown(OnRight(p, t.node, t.red, t.left), t.right);
      }
      ghost var down := if n == Top(t.left) then OnLeft(p, t.node, t.red, t.right)
        else OnRight(p, t.node, t.red, t.left);
      ghost var kid := if n == Top(t.left) then t.left else t.right;
      SetRed(n, red, down, kid);
      StepUp(down, Painted(kid, red));
    }

    // ---------- insertion ----------

    /** Two red children turn black and their black parent red. */
    method PushBlackDown(g: Node, parent: Node, uncle: Node, ghost p: Path, ghost t: Shape)
      requires At(p, t) && t.Branch? && t.node == g && t.left.Branch? && t.right.Branch?
      requires (parent == t.left.node && uncle == t.right.node) || (parent == t.right.node && uncle == t.left.node)
      modifies g`red, parent`red, uncle`red
      ensures At(p, PushedDown(t))
    {
      PaintKid(uncle, false, p, t);
      ghost var u := KidPainted(t, uncle, false);
      PaintKid(parent, false, p, u);
      SetRed(g, true, p, KidPainted(u, parent, false));
    }

    /** What the pointers of the focus's top node and of its parent say. */
    lemma Look(p: Path, t: Shape)
      requires At(p, t)
      ensures t.Branch? ==> t.node in nodes && Holds(t.node, Fields(Top(t.left), Top(t.right), ParentOf(p), t.red))
      ensures !p.AtRoot? ==> p.node in nodes && p.node.red == p.red && p.node.parent == ParentOf(p.up)
      ensures p.OnLeft? ==> p.node.left == Top(t) && p.node.right == Top(p.other)
      ensures p.OnRight? ==> p.node.right == Top(t) && p.node.left == Top(p.other)
      ensures !p.AtRoot? && t.Branch? ==> t.node != Top(p.other)
      ensures p.AtRoot? <==> node == Top(t)
    {
      if !p.AtRoot? {
        RootOnPath(p, Top(t));
      }
      if t.Branch? {
        assert t.node in Nodes(t) && Holds(t.node, Drawn(t, ParentOf(p), t.node));
      }
      if !p.AtRoot? {
        assert p.node in PathNodes(p) && Holds(p.node, DrawnPath(p, Top(t), p.node));
      }
    }

    lemma LookKids(p: Path, t: Shape)
      requires At(p, t) && t.Branch?
      ensures t.left.Branch? ==> t.left.node.red == t.left.red && t.left.node != t.node
      ensures t.right.Branch? ==> t.right.node.red == t.right.red && t.right.node != t.node
      ensures t.left.Branch? && t.right.Branch? ==> t.left.node != t.right.node
    {
      if t.left.Branch? {
        StepDown(OnLeft(p, t.node, t.red, t.right), t.left);
        Look(OnLeft(p, t.node, t.red, t.right), t.left);
      }
      if t.right.Branch? {
        StepDown(OnRight(p, t.node, t.red, t.left), t.right);
        Look(OnRight(p, t.node, t.red, t.left), t.right);
      }
    }

    method LiftLeft(n: Node, parent: Node, gparent: Node, ghost p: Path, ghost t: Shape) returns (low: Node)
      requires At(p, t) && t.Branch? && t.node == gparent && t.left.Branch? && t.left.node == parent
      requires n == Top(t.left.left) || n == Top(t.left.right)
      modifies this`node, nodes
      ensures At(p, LiftedLeft(t, n))
      ensures low == if n == Top(t.left.right) then parent else n
    {
      var high := parent;
      low := n;
      ghost var down := OnLeft(p, gparent, t.red, t.right);
      ghost var kid := t.left;
      StepDown(down, kid);
      Look(down, kid);
      assert Distinct(kid);
      if parent.right == n {
        RotateLeft(parent, down, kid);
        kid := LeftRotated(kid);
        low, high := parent, n;
      }
      StepUp(down, kid);
      ghost var u := Branch(kid, gparent, t.red, t.right);
      PaintKid(high, false, p, u);
      u := Branch(Painted(kid, false), gparent, t.red, t.right);
      SetRed(gparent, true, p, u);
      RotateRight(gparent, p, Painted(u, true));
    }

    method LiftRight(n: Node, parent: Node, gparent: Node, ghost p: Path, ghost t: Shape) returns (low: Node)
      requires At(p, t) && t.Branch? && t.node == gparent && t.right.Branch? && t.right.node == parent
      requires n == Top(t.right.left) || n == Top(t.right.right)
      modifies this`node, nodes
      ensures At(p, LiftedRight(t, n))
      ensures low == if n == Top(t.right.left) then parent else n
    {
      var high := parent;
      low := n;
      ghost var down := OnRight(p, gparent, t.red, t.left);
      ghost var kid := t.right;
      StepDown(down, kid);
      Look(down, kid);
      assert Distinct(kid);
      if parent.left == n {
        RotateRight(parent, down, kid);
        kid := RightRotated(kid);
        low, high := parent, n;
      }
      StepUp(down, kid);
      ghost var u := Branch(t.left, gparent, t.red, kid);
      assert high != Top(t.left);
      PaintKid(high, false, p, u);
      u := Branch(t.left, gparent, t.red, Painted(kid, false));
      SetRed(gparent, true, p, u);
      RotateLeft(gparent, p, Painted(u, true));
    }

    method InsertLeft(n: Node, parent: Node, gparent: Node, ghost p: Path, ghost t: Shape)
      returns (m: Node, ghost q: Path, ghost u: Shape)
      requires At(p, t) && ClashLeft(t, n) && t.left.node == parent && t.node == gparent
      requires Accepts(p, BlackHeight(t))
      modifies this`node, nodes
      ensures At(q, u) && Settled(p, t, q, u) && m == u.node
    {
      Look(p, t);
      var uncle := gparent.right;
      LookKids(p, t);
      if uncle != null && uncle.red {
        PushBlackDown(gparent, parent, uncle, p, t);
        PushedDownSettles(p, t, n);
        m, q, u := gparent, p, PushedDown(t);
      } else {
        m := LiftLeft(n, parent, gparent, p, t);
        LiftedLeftSettles(p, t, n);
        ghost var v := LiftedLeft(t, n);
        q, u := OnLeft(p, v.node, v.red, v.right), v.left;
        StepDown(q, u);
      }
    }

    method InsertRight(n: Node, parent: Node, gparent: Node, ghost p: Path, ghost t: Shape)
      returns (m: Node, ghost q: Path, ghost u: Shape)
      requires At(p, t) && ClashRight(t, n) && t.right.node == parent && t.node == gparent
      requires Accepts(p, BlackHeight(t))
      modifies this`node, nodes
      ensures At(q, u) && Settled(p, t, q, u) && m == u.node
    {
      Look(p, t);
      var uncle := gparent.left;
      LookKids(p, t);
      if uncle != null && uncle.red {
        PushBlackDown(gparent, parent, uncle, p, t);
        PushedDownSettles(p, t, n);
        m, q, u := gparent, p, PushedDown(t);
      } else {
        m := LiftRight(n, parent, gparent, p, t);
        LiftedRightSettles(p, t, n);
        ghost var v := LiftedRight(t, n);
        q, u := OnRight(p, v.node, v.red, v.left), v.right;
        StepDown(q, u);
      }
    }

    /** The focus `t` is red, and all is well but for a red parent it may have. */
    ghost predicate Pending(p: Path, t: Shape)
      reads this, nodes
    {
      At(p, t) && IsRed(t) && Balanced(t) && Accepts(p, BlackHeight(t)) && nodes == PathNodes(p) + Nodes(t)
    }

    method InsertStep(n: Node, ghost p: Path, ghost t: Shape) returns (m: Node, ghost q: Path, ghost u: Shape)
      requires Pending(p, t) && t.node == n && ParentIsRed(p)
      modifies this`node, nodes
      ensures Pending(q, u) && u.node == m && Inorder(Plug(q, u)) == Inorder(Plug(p, t))
      ensures m.parent == ParentOf(q) && (!q.AtRoot? ==> q.node.red == q.red)
      ensures ParentIsRed(q) ==> Depth(q) < Depth(p)
    {
      ClashAbove(p, t);
      Look(p, t);
      var parent := n.parent;
      var gparent := parent.parent;
      StepUp(p, t);
      Look(p.up, Raised(p, t));
      StepUp(p.up, Raised(p, t));
      if parent == gparent.left {
        m, q, u := InsertLeft(n, parent, gparent, p.up.up, Raised(p.up, Raised(p, t)));
      } else {
        m, q, u := InsertRight(n, parent, gparent, p.up.up, Raised(p.up, Raised(p, t)));
      }
      Look(q, u);
    }

    method InsertColor(n0: Node, ghost p0: Path)
      requires Pending(p0, Branch(Leaf, n0, true, Leaf))
      modifies this, nodes
      ensures Valid() && nodes == old(nodes)
      ensures Contents() == Before(p0) + [n0] + After(p0)
    {
      var n := n0;
      ghost var p, t := p0, Branch(Leaf, n0, true, Leaf);
      ghost var goal := Inorder(Plug(p, t));
      assert goal == Before(p0) + [n0] + After(p0) by {
        InorderOfPlug(p, t);
      }
      Look(p, t);
      while n.parent != null && n.parent.red
        invariant nodes == old(nodes)
        invariant Pending(p, t)
        invariant t.node == n
        invariant n.parent == ParentOf(p) && (n.parent != null ==> n.parent.red == p.red)
        invariant Inorder(Plug(p, t)) == goal
        decreases ParentIsRed(p), Depth(p)
      {
        n, p, t := InsertStep(n, p, t);
      }
      Blacken(p, t);
    }

    /** The root is painted black, which ends every insertion. */
    method Blacken(ghost p: Path, ghost t: Shape)
      requires Pending(p, t) && !ParentIsRed(p)
      modifies this, nodes
      ensures Valid() && nodes == old(nodes) && Contents() == Inorder(Plug(p, t))
    {
      ghost var u := Plug(p, t);
      ExtendRoot(p);
      ZipUp(AtRoot, p, t);
      NodesOfPlug(p, t);
      Look(AtRoot, u);
      if !p.AtRoot? {
        PlugRedBlack(p, t);
      }
      SetRed(node, false, AtRoot, u);
      shape := Painted(u, false);
    }

    // ---------- erasure ----------

    /** The focus is one black node short, unless its top is red and only needs painting. */
    ghost predicate Short(p: Path, t: Shape)
      reads this, nodes
    {
      && At(p, t) && (t.Branch? ==> Balanced(Painted(t, false)))
      && Accepts(p, BlackHeight(t) + 1) && nodes == PathNodes(p) + Nodes(t)
    }

    /** When all is repaired the root is the node to look at. */
    method Rise(ghost p: Path, ghost t: Shape) returns (m: Node?)
      requires At(p, t) && Balanced(t) && Accepts(p, BlackHeight(t)) && (IsRed(t) ==> !p.AtRoot? && !p.red)
      requires nodes == PathNodes(p) + Nodes(t)
      ensures Short(AtRoot, Plug(p, t)) && m == Top(Plug(p, t))
    {
      ExtendRoot(p);
      ZipUp(AtRoot, p, t);
      NodesOfPlug(p, t);
      PlugRedBlack(p, t);
      m := node;
    }

    method TurnSiblingLeft(parent: Node, other: Node, ghost p: Path, ghost t: Shape)
      requires At(p, t) && t.Branch? && t.node == parent && t.right.Branch? && t.right.node == other
      modifies this`node, nodes
      ensures At(p, TurnedLeft(t))
    {
      LookKids(p, t);
      PaintKid(other, false, p, t);
      SetRed(parent, true, p, Branch(t.left, parent, t.red, Painted(t.right, false)));
      RotateLeft(parent, p, Branch(t.left, parent, true, Painted(t.right, false)));
    }

    /** If the far nephew is black, the red near one is rotated to its place. */
    method ReddenFarLeft(parent: Node, other: Node, ghost p: Path, ghost s: Shape) returns (sibling: Node)
      requires At(p, s) && p.OnRight? && p.node == parent && s.Branch? && s.node == other
      requires IsRed(s.left) || IsRed(s.right)
      modifies this`node, nodes
      ensures At(p, FarRed(s)) && sibling == FarRed(s).node
    {
      sibling := other;
      Look(p, s);
      LookKids(p, s);
      if other.right == null || !other.right.red {
        var oLeft := other.left;
        if oLeft != null {
          PaintKid(oLeft, false, p, s);
        }
        SetRed(other, true, p, Branch(Painted(s.left, false), other, s.red, s.right));
        RotateRight(other, p, Branch(Painted(s.left, false), other, true, s.right));
        Look(p, FarRed(s));
        sibling := parent.right;
      }
    }

    method PaintFarLeft(parent: Node, other: Node, ghost p: Path, ghost t: Shape)
      requires At(p, t) && t.Branch? && t.node == parent && t.right.Branch?
        && t.right.node == other && t.right.right.Branch?
      modifies nodes
      ensures At(p, Branch(t.left, parent, t.red,
        Branch(t.right.left, other, t.right.red, Painted(t.right.right, false))))
    {
      ghost var down := OnRight(p, parent, t.red, t.left);
      StepDown(down, t.right);
      Look(down, t.right);
      LookKids(down, t.right);
      if other.right != null {
        PaintKid(other.right, false, down, t.right);
      }
      StepUp(down, Branch(t.right.left, other, t.right.red, Painted(t.right.right, false)));
    }

    /** The sibling takes the parent's colour; the parent and the far nephew turn black; the parent goes down. */
    method PayLeft(parent: Node, other: Node, ghost p: Path, ghost t: Shape)
      requires At(p, t) && t.Branch? && t.node == parent && t.right.Branch? && t.right.node == other
      requires IsRed(t.right.right)
      modifies this`node, nodes
      ensures At(p, LeftRotated(Branch(t.left, parent, false,
        Branch(t.right.left, other, t.red, Painted(t.right.right, false)))))
    {
      ghost var s := t.right;
      Look(p, t);
      LookKids(p, t);
      PaintKid(other, parent.red, p, t);
      SetRed(parent, false, p, Branch(t.left, parent, t.red, Painted(s, t.red)));
      PaintFarLeft(parent, other, p, Branch(t.left, parent, false, Painted(s, t.red)));
      RotateLeft(parent, p, Branch(t.left, parent, false, Branch(s.left, other, t.red, Painted(s.right, false))));
    }

    method RepairLeft(parent: Node, other: Node, ghost p: Path, ghost t: Shape)
      requires At(p, t) && t.Branch? && t.node == parent && t.right.Branch? && t.right.node == other
      requires IsRed(t.right.left) || IsRed(t.right.right)
      modifies this`node, nodes
      ensures At(p, RepairedLeft(t))
    {
      ghost var down := OnRight(p, parent, t.red, t.left);
      StepDown(down, t.right);
      var sibling := ReddenFarLeft(parent, other, down, t.right);
      StepUp(down, FarRed(t.right));
      PayLeft(parent, sibling, p, Branch(t.left, parent, t.red, FarRed(t.right)));
    }

    ghost predicate ReadyLeft(p: Path, t: Shape)
      reads this, nodes
    {
      && At(p, t) && ShortLeft(t) && Accepts(p, DueLeft(t)) && nodes == PathNodes(p) + Nodes(t)
      && (t.red ==> !p.AtRoot? && !p.red)
    }

    method PassUpLeft(parent: Node, other: Node, ghost p: Path, ghost t: Shape)
      returns (up: Node?, ghost u: Shape)
      requires ReadyLeft(p, t) && t.node == parent && t.right.Branch? && t.right.node == other && !t.right.red
      requires !IsRed(t.right.left) && !IsRed(t.right.right)
      modifies other`red
      ensures Short(p, u) && Top(u) == parent && up == ParentOf(p) && IsRed(u) == t.red
      ensures Inorder(Plug(p, u)) == Inorder(Plug(p, t))
    {
      LookKids(p, t);
      PaintKid(other, true, p, t);
      u := Branch(t.left, parent, t.red, Painted(t.right, true));
      PassedUpLeft(p, t);
      Look(p, u);
      up := parent.parent;
    }

    method FinishLeft(parent: Node, other: Node, ghost p: Path, ghost t: Shape)
      returns (m: Node?, ghost u: Shape)
      requires ReadyLeft(p, t) && t.node == parent && t.right.Branch? && t.right.node == other && !t.right.red
      requires IsRed(t.right.left) || IsRed(t.right.right)
      modifies this`node, nodes
      ensures Short(AtRoot, u) && m == Top(u) && Inorder(u) == Inorder(Plug(p, t))
    {
      RepairLeft(parent, other, p, t);
      RepairedLeftBalanced(p, t);
      u := Plug(p, RepairedLeft(t));
      m := Rise(p, RepairedLeft(t));
    }

    /** One step of the repair, at a parent whose left subtree is short and whose right child is black. */
    method EraseShortLeft(parent: Node, other: Node, ghost p: Path, ghost t: Shape)
      returns (m: Node?, up: Node?, ghost q: Path, ghost u: Shape)
      requires ReadyLeft(p, t) && t.node == parent && t.right.Branch? && t.right.node == other && !t.right.red
      modifies this`node, nodes
      ensures Short(q, u) && m == Top(u) && (!q.AtRoot? ==> up == ParentOf(q))
      ensures Inorder(Plug(q, u)) == Inorder(Plug(p, t))
      ensures q.AtRoot? || (q == p && IsRed(u) == t.red)
    {
      ghost var down := OnRight(p, parent, t.red, t.left);
      StepDown(down, t.right);
      Look(down, t.right);
      LookKids(down, t.right);
      if (other.left == null || !other.left.red) && (other.right == null || !other.right.red) {
        up, u := PassUpLeft(parent, other, p, t);
        m, q := parent, p;
      } else {
        m, u := FinishLeft(parent, other, p, t);
        up, q := null, AtRoot;
      }
    }

    /** A red sibling is turned away first. */
    method BlackSiblingLeft(parent: Node, ghost p: Path, ghost t: Shape)
      returns (other: Node, ghost q: Path, ghost u: Shape)
      requires ReadyLeft(p, t) && t.node == parent
      modifies this`node, nodes
      ensures ReadyLeft(q, u) && u.node == parent && u.right.Branch? && u.right.node == other && !u.right.red
      ensures Inorder(Plug(q, u)) == Inorder(Plug(p, t))
      ensures q == p || u.red
    {
      Look(p, t);
      LookKids(p, t);
      q, u := p, t;
      other := parent.right;
      if other.red {
        TurnSiblingLeft(parent, other, p, t);
        TurnedLeftShort(p, t);
        ghost var v := TurnedLeft(t);
        q, u := OnLeft(p, v.node, v.red, v.right), v.left;
        StepDown(q, u);
        Look(q, u);
        other := parent.right;
      }
    }

    method EraseRoundLeft(parent: Node, ghost p: Path, ghost t: Shape)
      returns (m: Node?, up: Node?, ghost q: Path, ghost u: Shape)
      requires Short(p, t) && !IsRed(t) && p.OnLeft? && p.node == parent
      modifies this`node, nodes
      ensures Short(q, u) && m == Top(u) && (!q.AtRoot? ==> up == ParentOf(q))
      ensures Inorder(Plug(q, u)) == Inorder(Plug(p, t))
      ensures IsRed(u) || Depth(q) < Depth(p)
    {
      ShortAbove(p, t);
      StepUp(p, t);
      var other;
      other, q, u := BlackSiblingLeft(parent, p.up, Raised(p, t));
      m, up, q, u := EraseShortLeft(parent, other, q, u);
    }

    method TurnSiblingRight(parent: Node, other: Node, ghost p: Path, ghost t: Shape)
      requires At(p, t) && t.Branch? && t.node == parent && t.left.Branch? && t.left.node == other
      modifies this`node, nodes
      ensures At(p, TurnedRight(t))
    {
      LookKids(p, t);
      PaintKid(other, false, p, t);
      SetRed(parent, true, p, Branch(Painted(t.left, false), parent, t.red, t.right));
      RotateRight(parent, p, Branch(Painted(t.left, false), parent, true, t.right));
    }

    /** If the far nephew is black, the red near one is rotated to its place. */
    method ReddenFarRight(parent: Node, other: Node, ghost p: Path, ghost s: Shape) returns (sibling: Node)
      requires At(p, s) && p.OnLeft? && p.node == parent && s.Branch? && s.node == other
      requires IsRed(s.right) || IsRed(s.left)
      modifies this`node, nodes
      ensures At(p, FarRedMirrored(s)) && sibling == FarRedMirrored(s).node
    {
      sibling := other;
      Look(p, s);
      LookKids(p, s);
      if other.left == null || !other.left.red {
        var oRight := other.right;
        if oRight != null {
          PaintKid(oRight, false, p, s);
        }
        SetRed(other, true, p, Branch(s.left, other, s.red, Painted(s.right, false)));
        RotateLeft(other, p, Branch(s.left, other, true, Painted(s.right, false)));
        Look(p, FarRedMirrored(s));
        sibling := parent.left;
      }
    }

    method PaintFarRight(parent: Node, other: Node, ghost p: Path, ghost t: Shape)
      requires At(p, t) && t.Branch? && t.node == parent && t.left.Branch?
        && t.left.node == other && t.left.left.Branch?
      modifies nodes
      ensures At(p, Branch(Branch(Painted(t.left.left, false), other, t.left.red, t.left.right),
        parent, t.red, t.right))
    {
      ghost var down := OnLeft(p, parent, t.red, t.right);
      StepDown(down, t.left);
      Look(down, t.left);
      LookKids(down, t.left);
      if other.left != null {
        PaintKid(other.left, false, down, t.left);
      }
      StepUp(down, Branch(Painted(t.left.left, false), other, t.left.red, t.left.right));
    }

    /** The sibling takes the parent's colour; the parent and the far nephew turn black; the parent goes down. */
    method PayRight(parent: Node, other: Node, ghost p: Path, ghost t: Shape)
      requires At(p, t) && t.Branch? && t.node == parent && t.left.Branch? && t.left.node == other
      requires IsRed(t.left.left)
      modifies this`node, nodes
      ensures At(p, RightRotated(Branch(Branch(Painted(t.left.left, false), other, t.red, t.left.right), parent, false,
        t.right)))
    {
      ghost var s := t.left;
      Look(p, t);
      LookKids(p, t);
      PaintKid(other, parent.red, p, t);
      SetRed(parent, false, p, Branch(Painted(s, t.red), parent, t.red, t.right));
      PaintFarRight(parent, other, p, Branch(Painted(s, t.red), parent, false, t.right));
      RotateRight(parent, p, Branch(Branch(Painted(s.left, false), other, t.red, s.right), parent, false, t.right));
    }

    method RepairRight(parent: Node, other: Node, ghost p: Path, ghost t: Shape)
      requires At(p, t) && t.Branch? && t.node == parent && t.left.Branch? && t.left.node == other
      requires IsRed(t.left.right) || IsRed(t.left.left)
      modifies this`node, nodes
      ensures At(p, RepairedRight(t))
    {
      ghost var down := OnLeft(p, parent, t.red, t.right);
      StepDown(down, t.left);
      var sibling := ReddenFarRight(parent, other, down, t.left);
      StepUp(down, FarRedMirrored(t.left));
      PayRight(parent, sibling, p, Branch(FarRedMirrored(t.left), parent, t.red, t.right));
    }

    ghost predicate ReadyRight(p: Path, t: Shape)
      reads this, nodes
    {
      && At(p, t) && ShortRight(t) && Accepts(p, DueRight(t)) && nodes == PathNodes(p) + Nodes(t)
      && (t.red ==> !p.AtRoot? && !p.red)
    }

    method PassUpRight(parent: Node, other: Node, ghost p: Path, ghost t: Shape)
      returns (up: Node?, ghost u: Shape)
      requires ReadyRight(p, t) && t.node == parent && t.left.Branch? && t.left.node == other && !t.left.red
      requires !IsRed(t.left.right) && !IsRed(t.left.left)
      modifies other`red
      ensures Short(p, u) && Top(u) == parent && up == ParentOf(p) && IsRed(u) == t.red
      ensures Inorder(Plug(p, u)) == Inorder(Plug(p, t))
    {
      LookKids(p, t);
      PaintKid(other, true, p, t);
      u := Branch(Painted(t.left, true), parent, t.red, t.right);
      PassedUpRight(p, t);
      Look(p, u);
      up := parent.parent;
    }

    method FinishRight(parent: Node, other: Node, ghost p: Path, ghost t: Shape)
      returns (m: Node?, ghost u: Shape)
      requires ReadyRight(p, t) && t.node == parent && t.left.Branch? && t.left.node == other && !t.left.red
      requires IsRed(t.left.right) || IsRed(t.left.left)
      modifies this`node, nodes
      ensures Short(AtRoot, u) && m == Top(u) && Inorder(u) == Inorder(Plug(p, t))
    {
      RepairRight(parent, other, p, t);
      RepairedRightBalanced(p, t);
      u := Plug(p, RepairedRight(t));
      m := Rise(p, RepairedRight(t));
    }

    /** One step of the repair, at a parent whose right subtree is short and whose left child is black. */
    method EraseShortRight(parent: Node, other: Node, ghost p: Path, ghost t: Shape)
      returns (m: Node?, up: Node?, ghost q: Path, ghost u: Shape)
      requires ReadyRight(p, t) && t.node == parent && t.left.Branch? && t.left.node == other && !t.left.red
      modifies this`node, nodes
      ensures Short(q, u) && m == Top(u) && (!q.AtRoot? ==> up == ParentOf(q))
      ensures Inorder(Plug(q, u)) == Inorder(Plug(p, t))
      ensures q.AtRoot? || (q == p && IsRed(u) == t.red)
    {
      ghost var down := OnLeft(p, parent, t.red, t.right);
      StepDown(down, t.left);
      Look(down, t.left);
      LookKids(down, t.left);
      if (other.right == null || !other.right.red) && (other.left == null || !other.left.red) {
        up, u := PassUpRight(parent, other, p, t);
        m, q := parent, p;
      } else {
        m, u := FinishRight(parent, other, p, t);
        up, q := null, AtRoot;
      }
    }

    /** A red sibling is turned away first. */
    method BlackSiblingRight(parent: Node, ghost p: Path, ghost t: Shape)
      returns (other: Node, ghost q: Path, ghost u: Shape)
      requires ReadyRight(p, t) && t.node == parent
      modifies this`node, nodes
      ensures ReadyRight(q, u) && u.node == parent && u.left.Branch? && u.left.node == other && !u.left.red
      ensures Inorder(Plug(q, u)) == Inorder(Plug(p, t))
      ensures q == p || u.red
    {
      Look(p, t);
      LookKids(p, t);
      q, u := p, t;
      other := parent.left;
      if other.red {
        TurnSiblingRight(parent, other, p, t);
        TurnedRightShort(p, t);
        ghost var v := TurnedRight(t);
        q, u := OnRight(p, v.node, v.red, v.left), v.right;
        StepDown(q, u);
        Look(q, u);
        other := parent.left;
      }
    }

    method EraseRoundRight(parent: Node, ghost p: Path, ghost t: Shape)
      returns (m: Node?, up: Node?, ghost q: Path, ghost u: Shape)
      requires Short(p, t) && !IsRed(t) && p.OnRight? && p.node == parent
      modifies this`node, nodes
      ensures Short(q, u) && m == Top(u) && (!q.AtRoot? ==> up == ParentOf(q))
      ensures Inorder(Plug(q, u)) == Inorder(Plug(p, t))
      ensures IsRed(u) || Depth(q) < Depth(p)
    {
      ShortAbove(p, t);
      StepUp(p, t);
      var other;
      other, q, u := BlackSiblingRight(parent, p.up, Raised(p, t));
      m, up, q, u := EraseShortRight(parent, other, q, u);
    }

    /** `__rb_erase_color` */
    method EraseColor(n0: Node?, parent0: Node?, ghost p0: Path, ghost t0: Shape)
      requires Short(p0, t0) && n0 == Top(t0) && parent0 == ParentOf(p0)
      modifies this, nodes
      ensures Valid() && nodes == old(nodes)
      ensures Contents() == Inorder(Plug(p0, t0))
    {
      var n, parent := n0, parent0;
      ghost var p, t := p0, t0;
      ghost var goal := Inorder(Plug(p, t));
      Look(p, t);
      while (n == null || !n.red) && n != node
        invariant nodes == old(nodes)
        invariant Short(p, t)
        invariant n == Top(t) && (n != null ==> n.red == t.red) && (p.AtRoot? <==> n == node)
        invariant !p.AtRoot? ==> parent == ParentOf(p)
        invariant Inorder(Plug(p, t)) == goal
        decreases !IsRed(t), Depth(p)
      {
        n, parent, p, t := EraseRound(n, parent, p, t);
      }
      BlackenTop(n, p, t);
    }

    method EraseRound(n: Node?, parent: Node, ghost p: Path, ghost t: Shape)
      returns (m: Node?, up: Node?, ghost q: Path, ghost u: Shape)
      requires Short(p, t) && !IsRed(t) && n == Top(t) && !p.AtRoot? && parent == ParentOf(p)
      modifies this`node, nodes
      ensures Short(q, u) && m == Top(u) && (!q.AtRoot? ==> up == ParentOf(q))
      ensures (m != null ==> m.red == u.red) && (q.AtRoot? <==> m == node)
      ensures Inorder(Plug(q, u)) == Inorder(Plug(p, t))
      ensures IsRed(u) || Depth(q) < Depth(p)
    {
      ShortAbove(p, t);
      Look(p, t);
      if parent.left == n {
        m, up, q, u := EraseRoundLeft(parent, p, t);
      } else {
        m, up, q, u := EraseRoundRight(parent, p, t);
      }
      Look(q, u);
    }

    method BlackenTop(n: Node?, ghost p: Path, ghost t: Shape)
      requires Short(p, t) && n == Top(t) && (p.AtRoot? || IsRed(t))
      modifies this, nodes
      ensures Valid() && nodes == old(nodes) && Contents() == Inorder(Plug(p, t))
    {
      ghost var u := t;
      if n != null {
        SetRed(n, false, p, t);
        u := Painted(t, false);
      }
      Reshaped(p, t, u);
      PlugRedBlack(p, u);
      ExtendRoot(p);
      ZipUp(AtRoot, p, u);
      NodesOfPlug(p, u);
      shape := Plug(p, u);
    }

    method Adopt(kid: Node, y: Node?)
      modifies kid`parent
      ensures kid.parent == y
    {
      kid.parent := y;
    }

    /** Hang `child` where `n`, which has no other child, hangs. */
    method Unlink(n: Node, child: Node?, parent: Node?, ghost p: Path, ghost t: Shape, ghost rest: Shape)
      requires At(p, t) && t.Branch? && t.node == n && child == Top(rest) && parent == ParentOf(p)
      requires (t.left.Leaf? && rest == t.right) || (t.right.Leaf? && rest == t.left)
      modifies this`node, nodes
      ensures At(p, rest)
    {
      OnlyKidDrawn(t, parent, rest);
      Look(p, t);
      if child != null {
        assert child in Nodes(rest);
        Adopt(child, parent);
      }
      assert Below(rest, parent);
      Relink(parent, n, child, p);
    }

    /** The assignment of a whole node. */
    method CopyFields(gone: Node, y: Node)
      modifies y
      ensures Holds(y, old(Fields(gone.left, gone.right, gone.parent, gone.red)))
    {
      y.left, y.right, y.parent, y.red := gone.left, gone.right, gone.parent, gone.red;
    }

    /** The node `y` copies the fields of `gone`, whose children accept it as their parent. */
    method CopyInto(gone: Node, y: Node, ghost t: Shape, ghost q: Node?)
      requires Below(t, q) && t.Branch? && t.node == gone && t.left.Branch? && Distinct(t)
      requires y in nodes && y !in Nodes(t)
      modifies y, t.left.node, Top(t.right)
      ensures Below(TopReplaced(t, y), q)
    {
      TopReplacedDrawn(t, q, y);
      assert Holds(gone, Drawn(t, q, gone));
      CopyFields(gone, y);
      Adopt(gone.left, y);
      if gone.right != null {
        Adopt(gone.right, y);
      }
    }

    /** The node `y` takes the place of `gone` in the tree. */
    method TakePlace(gone: Node, y: Node, ghost p: Path, ghost t: Shape)
      requires At(p, t) && t.Branch? && t.node == gone && t.left.Branch?
      requires y in nodes && y !in PathNodes(p) && y !in Nodes(t)
      modifies this`node, nodes
      ensures At(p, TopReplaced(t, y))
    {
      Look(p, t);
      TopReplacedDrawn(t, ParentOf(p), y);
      var parent := gone.parent;
      CopyInto(gone, y, t, parent);
      assert Above(p, gone);
      assert parent == null || parent in PathNodes(p);
      Relink(parent, gone, y, p);
    }

    /** After the node `gone` went: nothing more to do if it was red, else repair at the focus. */
    method Mend(gone: Node, red: bool, child: Node?, parent: Node?, ghost p: Path, ghost t: Shape)
      requires At(p, t) && nodes - {gone} == PathNodes(p) + Nodes(t) && child == Top(t) && parent == ParentOf(p)
      requires Balanced(t) && Accepts(p, BlackHeight(t) + if red then 0 else 1)
      requires red ==> !IsRed(t)
      modifies this, nodes
      ensures Valid() && nodes == old(nodes) - {gone} && Contents() == Inorder(Plug(p, t))
    {
      nodes := nodes - {gone};
      assert At(p, t);
      if !red {
        EraseColor(child, parent, p, t);
      } else {
        ExtendRoot(p);
        ZipUp(AtRoot, p, t);
        NodesOfPlug(p, t);
        PlugRedBlack(p, t);
        shape := Plug(p, t);
      }
    }

    /** A node with one child at most is spliced out. */
    method EraseSimple(n: Node, child: Node?, ghost p: Path, ghost t: Shape, ghost rest: Shape)
      requires At(p, t) && t.Branch? && t.node == n && nodes == PathNodes(p) + Nodes(t)
      requires (t.left.Leaf? && rest == t.right) || (t.right.Leaf? && rest == t.left)
      requires child == Top(rest) && Balanced(t) && Accepts(p, BlackHeight(t))
      modifies this, nodes
      ensures Valid() && nodes == old(nodes) - {n} && Contents() == Inorder(Plug(p, rest))
    {
      Look(p, t);
      OnlyKidDrawn(t, n.parent, rest);
      var parent, red := n.parent, n.red;
      Unlink(n, child, parent, p, t, rest);
      Mend(n, red, child, parent, p, rest);
    }

    method Leftmost(n: Node, ghost p: Path, ghost t: Shape) returns (y: Node, ghost inner: Path, ghost u: Shape)
      requires At(p, t) && t.Branch? && t.node == n
      ensures At(Extend(p, inner), u) && u.Branch? && u.node == y && u.left.Leaf?
      ensures AllLeft(inner) && Plug(inner, u) == t
    {
      y, inner, u := n, AtRoot, t;
      Look(p, t);
      while y.left != null
        invariant At(Extend(p, inner), u) && u.Branch? && u.node == y && y.left == Top(u.left)
        invariant AllLeft(inner) && Plug(inner, u) == t
        decreases u
      {
        y := y.left;
        inner, u := OnLeft(inner, u.node, u.red, u.right), u.left;
        StepDown(Extend(p, inner), u);
        Look(Extend(p, inner), u);
      }
    }

    /** The successor `y` is unlinked and then put in the place of `n`; returns where the tree may be short. */
    method SwapOut(n: Node, y: Node, ghost p: Path, ghost t: Shape, ghost inner: Path, ghost u: Shape)
      returns (child: Node?, parent: Node, red: bool)
      requires t.Branch? && t.left.Branch? && t.node == n && t.right == Plug(inner, u)
      requires At(p, t) && At(Extend(OnRight(p, n, t.red, t.left), inner), u)
      requires u.Branch? && u.node == y && u.left.Leaf? && AllLeft(inner)
      modifies this`node, nodes
      ensures At(Extend(OnRight(p, y, t.red, t.left), inner), u.right)
      ensures child == Top(u.right) && parent == ParentOf(Extend(OnRight(p, y, t.red, t.left), inner)) && red == u.red
    {
      ghost var o := OnRight(p, n, t.red, t.left);
      ghost var q := Extend(o, inner);
      ghost var r := Plug(inner, u.right);
      SuccessorNodes(p, t, inner, u);
      Look(q, u);
      child, parent, red := y.right, y.parent, y.red;
      Unlink(y, child, parent, q, u, u.right);
      ZipUp(o, inner, u.right);
      StepUp(o, r);
      TakePlace(n, y, p, Branch(t.left, n, t.red, r));
      if parent == n {
        parent := y;
      }
      ghost var o2 := OnRight(p, y, t.red, t.left);
      StepDown(o2, r);
      ZipDown(o2, inner, u.right);
    }

    /** The leftmost node of the right side, which has no left child. */
    method Successor(n: Node, ghost p: Path, ghost t: Shape) returns (y: Node, ghost inner: Path, ghost u: Shape)
      requires At(p, t) && t.Branch? && t.node == n && t.right.Branch?
      ensures At(Extend(OnRight(p, n, t.red, t.left), inner), u) && u.Branch? && u.node == y && u.left.Leaf?
      ensures AllLeft(inner) && Plug(inner, u) == t.right
    {
      Look(p, t);
      StepDown(OnRight(p, n, t.red, t.left), t.right);
      y, inner, u := Leftmost(n.right, OnRight(p, n, t.red, t.left), t.right);
    }

    /** The successor takes the place of a node with two children; then the tree is mended where it was. */
    method EraseBySuccessor(n: Node, y: Node, ghost p: Path, ghost t: Shape,
                            ghost inner: Path, ghost u: Shape, ghost q: Path)
      requires t.Branch? && t.left.Branch? && t.node == n && t.right == Plug(inner, u)
      requires At(p, t) && At(Extend(OnRight(p, n, t.red, t.left), inner), u)
      requires u.Branch? && u.node == y && u.left.Leaf? && AllLeft(inner)
      requires q == Extend(OnRight(p, y, t.red, t.left), inner)
      requires nodes - {n} == PathNodes(q) + Nodes(u.right)
      requires Balanced(u.right) && Accepts(q, BlackHeight(u.right) + if u.red then 0 else 1)
        && (u.red ==> !IsRed(u.right))
      modifies this, nodes
      ensures Valid() && nodes == old(nodes) - {n}
      ensures Contents() == Inorder(Plug(q, u.right))
    {
      var child, parent, red := SwapOut(n, y, p, t, inner, u);
      Mend(n, red, child, parent, q, u.right);
    }

    method EraseDouble(n: Node, ghost p: Path, ghost t: Shape)
      requires At(p, t) && t.Branch? && t.node == n && nodes == PathNodes(p) + Nodes(t)
      requires t.left.Branch? && t.right.Branch? && RedBlack(Plug(p, t))
      modifies this, nodes
      ensures Valid() && nodes == old(nodes) - {n}
      ensures Contents() == Without(Inorder(Plug(p, t)), n)
    {
      var y;
      ghost var inner, u;
      y, inner, u := Successor(n, p, t);
      SuccessorNodes(p, t, inner, u);
      SuccessorBalance(p, t, inner, u);
      EraseBySuccessor(n, y, p, t, inner, u, Extend(OnRight(p, y, t.red, t.left), inner));
    }

    method Erase(n: Node)
      requires Valid() && n in nodes
      modifies this, nodes
      ensures Valid() && nodes == old(nodes) - {n}
      ensures Contents() == Without(old(Contents()), n)
    {
      ghost var p, t := FocusOn(AtRoot, shape, n);
      NodesOfPlug(p, t);
      ExtendRoot(p);
      ZipDown(AtRoot, p, t);
      UnplugRedBlack(p, t);
      Look(p, t);
      if n.left == null {
        TopTakenOut(p, t, t.right);
        EraseSimple(n, n.right, p, t, t.right);
      } else if n.right == null {
        TopTakenOut(p, t, t.left);
        EraseSimple(n, n.left, p, t, t.left);
      } else {
        EraseDouble(n, p, t);
      }
    }

    // ---------- linking a new node ----------

    /** Store a fresh red leaf at `link`. */
    method LinkNode(n: Node, parent: Node?, link: Link, ghost p: Path)
      requires At(p, Leaf) && nodes == PathNodes(p) && n !in nodes
      requires parent == ParentOf(p) && link == LinkOf(p)
      modifies this`node, this`nodes, n, parent
      ensures At(p, Branch(Leaf, n, true, Leaf)) && nodes == old(nodes) + {n}
    {
      DrawnPathElsewhere(p, null, n);
      n.parent, n.red := parent, true;
      n.left, n.right := null, null;
      match link {
        case RootLink => node := n;
        case LeftLink(o) => o.left := n;
        case RightLink(o) => o.right := n;
      }
      nodes := nodes + {n};
    }

    /** `rb_link_node` followed by `rb_insert_color`, as every search that fails ends. */
    method Insert(n: Node, parent: Node?, link: Link, ghost p: Path)
      requires Valid() && At(p, Leaf) && Plug(p, Leaf) == shape && n !in nodes
      requires parent == ParentOf(p) && link == LinkOf(p)
      modifies this, nodes, n
      ensures Valid() && nodes == old(nodes) + {n}
      ensures Contents() == Before(p) + [n] + After(p)
    {
      NodesOfPlug(p, Leaf);
      UnplugRedBlack(p, Leaf);
      LinkNode(n, parent, link, p);
      InsertColor(n, p);
    }

    // ---------- walking ----------

    method First() returns (n: Node?)
      requires Valid()
      ensures n == if Contents() == [] then null else Contents()[0]
    {
      Look(AtRoot, shape);
      n := node;
      if n != null {
        ghost var inner, u;
        n, inner, u := Leftmost(n, AtRoot, shape);
        InorderOfPlug(inner, u);
        NothingBefore(inner);
      }
    }

    /** The node that follows the focus's top node, whose right subtree is empty. */
    method ClimbToNext(n0: Node, ghost p0: Path, ghost t0: Shape) returns (next: Node?)
      requires At(p0, t0) && t0.Branch? && t0.node == n0
      ensures next == if After(p0) == [] then null else After(p0)[0]
    {
      var n := n0;
      ghost var p, t := p0, t0;
      Look(p, t);
      while n.parent != null && n == n.parent.right
        invariant At(p, t) && t.Branch? && t.node == n && n.parent == ParentOf(p)
        invariant p.OnLeft? ==> n == n.parent.left && n != n.parent.right
        invariant p.OnRight? ==> n == n.parent.right
        invariant After(p) == After(p0)
        decreases Depth(p)
      {
        n := n.parent;
        StepUp(p, t);
        p, t := p.up, Raised(p, t);
        Look(p, t);
      }
      next := n.parent;
    }

    /** The node after `n`, which stands at `i` in the sequence. */
    method Next(n: Node, ghost i: nat) returns (next: Node?)
      requires Valid() && i < |Contents()| && Contents()[i] == n
      ensures next == if i + 1 < |Contents()| then Contents()[i + 1] else null
    {
      InorderNodes(shape, n);
      ghost var p, t := FocusOn(AtRoot, shape, n);
      ExtendRoot(p);
      ZipDown(AtRoot, p, t);
      Look(p, t);
      ghost var b := Inorder(t.right) + After(p);
      assert n.parent != n;
      if n.parent == n {
        return null;
      }
      if n.right != null {
        ghost var inner, u;
        next, inner, u := Successor(n, p, t);
        InorderOfPlug(inner, u);
        NothingBefore(inner);
      } else {
        next := ClimbToNext(n, p, t);
      }
      assert Plug(p, t) == shape;
      Follows(p, t, Contents(), i, next);
    }

    /** Walking from the first node by way of `Next` meets every node once, in order. */
    method Walk() returns (met: seq<Node>)
      requires Valid()
      ensures met == Contents()
    {
      met := [];
      var n := First();
      while n != null
        invariant met <= Contents()
        invariant n == if |met| < |Contents()| then Contents()[|met|] else null
        decreases |Contents()| - |met|
      {
        var next := Next(n, |met|);
        met := met + [n];
        n := next;
      }
    }
  }
}

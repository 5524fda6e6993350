/** The steps of red-black rebalancing, as moves of a red subtree `t` and the path `p` above it. */
module Rebalance {
  import opened RangeTree

  /** The subtree one level up. */
  function Up<N, I>(p: Path<N, I>, t: Tree<N, I>): Tree<N, I>
    requires !p.Top?
  {
    if p.InLeft? then Fork(p.id, p.color, p.range, t, p.sib) else Fork(p.id, p.color, p.range, p.sib, t)
  }

  /** What every iteration of the rebalancing loop may rely on: everything is as in a red-black tree,
      save that `t` and its parent may both be red. */
  ghost predicate AlmostRedBlack<N, I>(p: Path<N, I>, t: Tree<N, I>) {
    && IsRed(t) && Balanced(t) && NoRedRed(t)
    && PathBalanced(p, BlackHeight(t)) && PathNoRedRed(p)
  }

  ghost function InOrder<N, I>(p: Path<N, I>, t: Tree<N, I>): seq<Range<I>> {
    Before(p) + Ranges(t) + After(p)
  }

  ghost function AllIds<N, I>(p: Path<N, I>, t: Tree<N, I>): set<N> {
    PathIds(p) + Ids(t)
  }

  /** The explicit measure of the loop: zero once the parent is black or absent. */
  ghost function Measure<N, I>(p: Path<N, I>): nat {
    if PathRed(p) then Depth(p) else 0
  }

  /** Climbing one level changes neither the order nor the nodes. */
  lemma {:induction false} UpKeeps<N, I>(p: Path<N, I>, t: Tree<N, I>)
    requires !p.Top?
    ensures InOrder(p.up, Up(p, t)) == InOrder(p, t)
    ensures AllIds(p.up, Up(p, t)) == AllIds(p, t)
  {
    if p.InLeft? {
      assert InOrder(p, t) == Before(p.up) + (Ranges(t) + [p.range] + Ranges(p.sib)) + After(p.up);
    } else {
      assert InOrder(p, t) == Before(p.up) + (Ranges(p.sib) + [p.range] + Ranges(t)) + After(p.up);
    }
  }

  /** A red node without children, put where a red-black tree `t` has nothing. */
  lemma NewLeaf<N, I>(t: Tree<N, I>, p: Path<N, I>, id: N, x: Range<I>)
    requires RedBlack(t) && Plug(p, Leaf) == t
    ensures PathIds(p) == Ids(t)
    ensures AlmostRedBlack(p, Fork(id, Red, x, Leaf, Leaf))
    ensures InOrder(p, Fork(id, Red, x, Leaf, Leaf)) == Before(p) + [x] + After(p)
  {
    PlugIds(p, Leaf);
    PlugShape(p, Leaf);
    assert Ranges(Fork(id, Red, x, Leaf, Leaf)) == [x];
  }

  // ---------- Red uncle: recolour and climb ----------

  function Recoloured<N, I>(p: Path<N, I>, t: Tree<N, I>): Tree<N, I>
    requires !p.Top? && !p.up.Top? && p.up.sib.Fork?
  {
    Up(PaintNode(PaintSib(p.up, Black), Red), Up(PaintNode(p, Black), t))
  }

  lemma RecolourShape<N, I>(p: Path<N, I>, t: Tree<N, I>)
    requires AlmostRedBlack(p, t) && PathRed(p) && IsRed(p.up.sib)
    ensures AlmostRedBlack(p.up.up, Recoloured(p, t))
    ensures Measure(p.up.up) < Measure(p)
  {
    assert PathBalanced(p.up, BlackHeight(t)) && PathNoRedRed(p.up);
    assert Balanced(p.up.sib) && NoRedRed(p.up.sib);
    assert Depth(p) == 2 + Depth(p.up.up);
    var p', u' := PaintNode(p, Black), p.up.sib.(color := Black);
    assert NoRedRed(Up(p', t)) && Balanced(Up(p', t));
    assert NoRedRed(u') && Balanced(u') && BlackHeight(u') == BlackHeight(Up(p', t));
  }

  lemma RecolourOrder<N, I>(p: Path<N, I>, t: Tree<N, I>)
    requires !p.Top? && !p.up.Top? && p.up.sib.Fork?
    ensures InOrder(p.up.up, Recoloured(p, t)) == InOrder(p, t)
    ensures AllIds(p.up.up, Recoloured(p, t)) == AllIds(p, t)
  {
    UpKeeps(p, t);
    UpKeeps(p.up, Up(p, t));
    var u' := p.up.sib.(color := Black);
    assert Ranges(u') == Ranges(p.up.sib) && Ids(u') == Ids(p.up.sib);
    var s, s' := Up(p, t), Up(PaintNode(p, Black), t);
    assert Ranges(s) == Ranges(s') && Ids(s) == Ids(s');
  }

  // ---------- Inner grandchild: turn it outward ----------

  /** The path and subtree after the parent and `t` have changed places. */
  function TurnedOutPath<N, I>(p: Path<N, I>, t: Tree<N, I>): Path<N, I>
    requires !p.Top? && t.Fork?
  {
    if p.InRight? then InLeft(t.id, t.color, t.range, t.right, p.up)
    else InRight(t.id, t.color, t.range, t.left, p.up)
  }

  function TurnedOut<N, I>(p: Path<N, I>, t: Tree<N, I>): Tree<N, I>
    requires !p.Top? && t.Fork?
  {
    if p.InRight? then Fork(p.id, p.color, p.range, p.sib, t.left)
    else Fork(p.id, p.color, p.range, t.right, p.sib)
  }

  lemma TurnOutShape<N, I>(p: Path<N, I>, t: Tree<N, I>)
    requires AlmostRedBlack(p, t) && PathRed(p)
    ensures AlmostRedBlack(TurnedOutPath(p, t), TurnedOut(p, t)) && PathRed(TurnedOutPath(p, t))
  {
  }

  lemma TurnOutOrder<N, I>(p: Path<N, I>, t: Tree<N, I>)
    requires !p.Top? && t.Fork?
    ensures InOrder(TurnedOutPath(p, t), TurnedOut(p, t)) == InOrder(p, t)
    ensures AllIds(TurnedOutPath(p, t), TurnedOut(p, t)) == AllIds(p, t)
  {
    var q, u := TurnedOutPath(p, t), TurnedOut(p, t);
    UpKeeps(p, t);
    UpKeeps(q, u);
    RotationOrder(Up(p, t), Up(q, u));
  }

  /** `u` is `t` turned to the left, or to the right. */
  ghost predicate IsRotation<N, I>(t: Tree<N, I>, u: Tree<N, I>) {
    t.Fork? && u.Fork? &&
    ((t.right.Fork? && u == t.right.(left := t.(right := t.right.left))) ||
     (t.left.Fork? && u == t.left.(right := t.(left := t.left.right))))
  }

  lemma RotationOrder<N, I>(t: Tree<N, I>, u: Tree<N, I>)
    requires IsRotation(t, u)
    ensures Ranges(u) == Ranges(t) && Ids(u) == Ids(t)
  {
    if t.right.Fork? && u == t.right.(left := t.(right := t.right.left)) {
      var a, x, b, y, c := Ranges(t.left), [t.range], Ranges(t.right.left), [t.right.range], Ranges(t.right.right);
      assert a + x + (b + y + c) == (a + x + b) + y + c;
      assert Ranges(u.left) == a + x + b;
    } else {
      var a, x, b, y, c := Ranges(t.left.left), [t.left.range], Ranges(t.left.right), [t.range], Ranges(t.right);
      assert (a + x + b) + y + c == a + x + (b + y + c);
      assert Ranges(u.right) == b + y + c;
    }
  }

  // ---------- Outer grandchild: turn the grandparent down ----------

  function TurnedDownPath<N, I>(p: Path<N, I>): Path<N, I>
    requires !p.Top? && !p.up.Top?
  {
    var g := p.up;
    if p.InLeft? then InLeft(p.id, Black, p.range, Fork(g.id, Red, g.range, p.sib, g.sib), g.up)
    else InRight(p.id, Black, p.range, Fork(g.id, Red, g.range, g.sib, p.sib), g.up)
  }

  lemma TurnDownShape<N, I>(p: Path<N, I>, t: Tree<N, I>)
    requires AlmostRedBlack(p, t) && PathRed(p) && !IsRed(p.up.sib)
    ensures AlmostRedBlack(TurnedDownPath(p), t) && !PathRed(TurnedDownPath(p))
  {
    var d := TurnedDownPath(p).sib;
    assert PathBalanced(p.up, BlackHeight(t)) && PathNoRedRed(p.up);
    assert Balanced(d) && NoRedRed(d) && BlackHeight(d) == BlackHeight(t);
  }

  lemma TurnDownOrder<N, I>(p: Path<N, I>, t: Tree<N, I>)
    requires !p.Top? && !p.up.Top? && p.InLeft? == p.up.InLeft?
    ensures InOrder(TurnedDownPath(p), t) == InOrder(p, t)
    ensures AllIds(TurnedDownPath(p), t) == AllIds(p, t)
  {
    var q := TurnedDownPath(p);
    UpKeeps(p, t);
    UpKeeps(p.up, Up(p, t));
    UpKeeps(q, t);
    var whole := Up(PaintNode(p.up, Red), Up(PaintNode(p, Black), t));
    RotationOrder(whole, Up(q, t));
  }

  // ---------- The end ----------

  function Blackened<N, I>(t: Tree<N, I>): Tree<N, I> {
    if t.Leaf? then t else t.(color := Black)
  }

  lemma BlackenedIsRedBlack<N, I>(p: Path<N, I>, t: Tree<N, I>)
    requires AlmostRedBlack(p, t) && !PathRed(p)
    ensures RedBlack(Blackened(Plug(p, t)))
    ensures Ranges(Blackened(Plug(p, t))) == InOrder(p, t)
  {
    PlugShape(p, t);
    PlugRanges(p, t);
  }
}

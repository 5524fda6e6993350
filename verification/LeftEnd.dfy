/** The lowest node of a tree, and that rebalancing hangs nothing below it. */
module LeftEnd {
  import opened RangeSearch
  import opened RangeTree
  import opened Rebalance

  /** The node that comes first in order has no child. */
  predicate LeftmostBare<N, I>(t: Tree<N, I>) {
    match t
    case Leaf => true
    case Fork(_, _, _, l, r) => if l.Leaf? then r.Leaf? else LeftmostBare(l)
  }

  /** Whether the first node has a child shows in the subtree at the left end, and nowhere else. */
  lemma {:induction false} PlugBare<N, I>(p: Path<N, I>, t: Tree<N, I>, u: Tree<N, I>)
    requires t.Fork? && u.Fork?
    ensures Before(p) == [] ==> LeftmostBare(Plug(p, t)) == LeftmostBare(t)
    ensures Before(p) != [] ==> LeftmostBare(Plug(p, t)) == LeftmostBare(Plug(p, u))
    decreases p
  {
    match p
    case Top =>
    case InLeft(id, c, rg, sib, up) => PlugBare(up, Fork(id, c, rg, t, sib), Fork(id, c, rg, u, sib));
    case InRight(id, c, rg, sib, up) =>
      PlugBare(up, Fork(id, c, rg, sib, t), Fork(id, c, rg, sib, u));
      PlugBare(up, Fork(id, c, rg, sib, u), Fork(id, c, rg, sib, t));
  }

  /** A move keeps the first node childless. */
  ghost predicate StaysBare<N, I>(p: Path<N, I>, t: Tree<N, I>, q: Path<N, I>, u: Tree<N, I>) {
    LeftmostBare(Plug(p, t)) ==> LeftmostBare(Plug(q, u))
  }

  lemma MovesBare<N, I>(p: Path<N, I>, t: Tree<N, I>, u: Tree<N, I>)
    requires t.Fork? && u.Fork? && (LeftmostBare(t) ==> LeftmostBare(u))
    ensures StaysBare(p, t, p, u)
  {
    PlugBare(p, t, u);
    PlugBare(p, u, t);
  }

  lemma PlugUp<N, I>(p: Path<N, I>, t: Tree<N, I>)
    requires !p.Top?
    ensures Plug(p, t) == Plug(p.up, Up(p, t))
  {
  }

  lemma UpBare<N, I>(p: Path<N, I>, t: Tree<N, I>)
    requires !p.Top?
    ensures LeftmostBare(Up(p, t)) == if p.InLeft? then (if t.Leaf? then p.sib.Leaf? else LeftmostBare(t))
                                      else if p.sib.Leaf? then t.Leaf? else LeftmostBare(p.sib)
  {
  }

  lemma RecolouredBare<N, I>(p: Path<N, I>, t: Tree<N, I>)
    requires !p.Top? && !p.up.Top? && p.up.sib.Fork? && t.Fork?
    ensures StaysBare(p, t, p.up.up, Recoloured(p, t))
  {
    PlugUp(p, t);
    PlugUp(p.up, Up(p, t));
    UpBare(p, t);
    UpBare(PaintNode(p, Black), t);
    UpBare(p.up, Up(p, t));
    UpBare(PaintNode(PaintSib(p.up, Black), Red), Up(PaintNode(p, Black), t));
    MovesBare(p.up.up, Up(p.up, Up(p, t)), Recoloured(p, t));
  }

  lemma TurnedOutBare<N, I>(p: Path<N, I>, t: Tree<N, I>)
    requires !p.Top? && !p.up.Top? && p.InRight? == p.up.InLeft? && t.Fork?
    ensures StaysBare(p, t, TurnedOutPath(p, t), TurnedOut(p, t))
  {
    var q, u := TurnedOutPath(p, t), TurnedOut(p, t);
    PlugUp(p, t);
    PlugUp(p.up, Up(p, t));
    PlugUp(q, u);
    PlugUp(q.up, Up(q, u));
    UpBare(p, t);
    UpBare(p.up, Up(p, t));
    UpBare(q, u);
    UpBare(q.up, Up(q, u));
    MovesBare(p.up.up, Up(p.up, Up(p, t)), Up(q.up, Up(q, u)));
  }

  lemma TurnedDownBare<N, I>(p: Path<N, I>, t: Tree<N, I>)
    requires !p.Top? && !p.up.Top? && p.InLeft? == p.up.InLeft? && t.Fork?
    ensures StaysBare(p, t, TurnedDownPath(p), t)
  {
    var q := TurnedDownPath(p);
    PlugUp(p, t);
    PlugUp(p.up, Up(p, t));
    PlugUp(q, t);
    UpBare(p, t);
    UpBare(p.up, Up(p, t));
    UpBare(q, t);
    MovesBare(p.up.up, Up(p.up, Up(p, t)), Up(q, t));
  }

  lemma BlackenedBare<N, I>(t: Tree<N, I>)
    ensures LeftmostBare(Blackened(t)) == LeftmostBare(t)
  {
  }

  /** A new leaf that comes first has no child, and one that does not come second is not hung below
      the first. */
  lemma NewLeafBare<N, I>(p: Path<N, I>, id: N, x: Range<I>)
    requires Before(p) == [] || (|Before(p)| > 1 && LeftmostBare(Plug(p, Leaf)))
    ensures LeftmostBare(Plug(p, Fork(id, Red, x, Leaf, Leaf)))
  {
    var leaf := Fork(id, Red, x, Leaf, Leaf);
    if Before(p) == [] {
      PlugBare(p, leaf, leaf);
    } else {
      PlugUp(p, Leaf);
      PlugUp(p, leaf);
      if p.InRight? && p.sib.Leaf? {
        PlugBare(p.up, Up(p, Leaf), Up(p, leaf));
      } else {
        MovesBare(p.up, Up(p, Leaf), Up(p, leaf));
      }
    }
  }

  /** `x` comes first, or leaves a childless first node alone because it does not come second. */
  ghost predicate StaysFirst<N, I>(t: Tree<N, I>, x: Range<I>) {
    var k := InsertPos(Ranges(t), x);
    k == 0 || (k > 1 && LeftmostBare(t))
  }

  lemma AddedFirst<N, I>(t: Tree<N, I>, p: Path<N, I>, id: N, x: Range<I>)
    requires Plug(p, Leaf) == t && |Before(p)| == InsertPos(Ranges(t), x)
    ensures StaysFirst(t, x) ==> LeftmostBare(Plug(p, Fork(id, Red, x, Leaf, Leaf)))
  {
    if StaysFirst(t, x) {
      NewLeafBare(p, id, x);
    }
  }
}

/** Adding a range to a red-black tree as a function of the tree: the descent, the new leaf, and the
    whole rebalancing. It depends on the shape of the tree only, not on which nodes it consists of. */
module Insertion {
  import opened Options
  import opened RangeSearch
  import opened RangeTree
  import opened Rebalance

  // ---------- Rebalancing as a function ----------

  /** An inner grandchild is turned outward first. */
  function OuterPath<N, I>(p: Path<N, I>, t: Tree<N, I>): Path<N, I>
    requires !p.Top? && !p.up.Top? && t.Fork?
  {
    if p.InLeft? == p.up.InLeft? then p else TurnedOutPath(p, t)
  }

  function Outer<N, I>(p: Path<N, I>, t: Tree<N, I>): Tree<N, I>
    requires !p.Top? && !p.up.Top? && t.Fork?
  {
    if p.InLeft? == p.up.InLeft? then t else TurnedOut(p, t)
  }

  /** What becomes of the whole tree when its red subtree `t` below `p` may have a red parent. */
  function Rebalanced<N, I>(p: Path<N, I>, t: Tree<N, I>): Tree<N, I>
    requires t.Fork?
    decreases p
  {
    if !PathRed(p) || p.up.Top? then Blackened(Plug(p, t))
    else if IsRed(p.up.sib) then Rebalanced(p.up.up, Recoloured(p, t))
    else Blackened(Plug(TurnedDownPath(OuterPath(p, t)), Outer(p, t)))
  }

  /** The tree with a new range in node `id`, or nothing if it overlaps. */
  function Added<N, I>(t: Tree<N, I>, id: N, x: Range<I>): Option<Tree<N, I>> {
    var p := PlaceBelow(Top, t, x);
    if p.None? then None else Some(Rebalanced(p.value, Fork(id, Red, x, Leaf, Leaf)))
  }

  lemma TurnedShape<N, I>(p: Path<N, I>, t: Tree<N, I>)
    requires AlmostRedBlack(p, t) && PathRed(p) && !p.up.Top? && !IsRed(p.up.sib)
    ensures AlmostRedBlack(TurnedDownPath(OuterPath(p, t)), Outer(p, t))
    ensures !PathRed(TurnedDownPath(OuterPath(p, t)))
    ensures InOrder(TurnedDownPath(OuterPath(p, t)), Outer(p, t)) == InOrder(p, t)
  {
    var q, u := OuterPath(p, t), Outer(p, t);
    if q != p {
      TurnOutShape(p, t);
      TurnOutOrder(p, t);
    }
    TurnDownShape(q, u);
    TurnDownOrder(q, u);
  }

  /** Rebalancing restores the red-black shape and keeps the order. */
  lemma {:induction false} RebalancedMeans<N, I>(p: Path<N, I>, t: Tree<N, I>)
    requires AlmostRedBlack(p, t)
    ensures RedBlack(Rebalanced(p, t)) && Ranges(Rebalanced(p, t)) == InOrder(p, t)
    decreases p
  {
    if !PathRed(p) {
      BlackenedIsRedBlack(p, t);
    } else if IsRed(p.up.sib) {
      RecolourShape(p, t);
      RecolourOrder(p, t);
      RebalancedMeans(p.up.up, Recoloured(p, t));
    } else {
      TurnedShape(p, t);
      BlackenedIsRedBlack(TurnedDownPath(OuterPath(p, t)), Outer(p, t));
    }
  }

  /** On red-black trees with sorted ranges, adding is insertion into the sorted sequence, and is refused
      exactly for an overlap. */
  lemma AddedMeans<N, I>(t: Tree<N, I>, id: N, x: Range<I>)
    requires RedBlack(t) && Sorted(Ranges(t)) && x.lo <= x.hi
    ensures Added(t, id, x).Some? <==> Accepts(Ranges(t), x)
    ensures Added(t, id, x).Some? ==>
            var u := Added(t, id, x).value;
            RedBlack(u) && Sorted(Ranges(u)) && Ranges(u) == InsertRange(Ranges(t), x)
  {
    PlaceIsInsertion(t, x);
    if PlaceBelow(Top, t, x).Some? {
      var p := PlaceBelow(Top, t, x).value;
      NewLeaf(t, p, id, x);
      RebalancedMeans(p, Fork(id, Red, x, Leaf, Leaf));
      InsertRangeSorted(Ranges(t), x);
    }
  }

  // ---------- Without the identities of the nodes ----------

  function Shape<N, I>(t: Tree<N, I>): Tree<(), I> {
    match t
    case Leaf => Leaf
    case Fork(_, c, rg, l, r) => Fork((), c, rg, Shape(l), Shape(r))
  }

  function PathShape<N, I>(p: Path<N, I>): Path<(), I> {
    match p
    case Top => Top
    case InLeft(_, c, rg, sib, up) => InLeft((), c, rg, Shape(sib), PathShape(up))
    case InRight(_, c, rg, sib, up) => InRight((), c, rg, Shape(sib), PathShape(up))
  }

  lemma {:induction false} ShapePlug<N, I>(p: Path<N, I>, t: Tree<N, I>)
    ensures Shape(Plug(p, t)) == Plug(PathShape(p), Shape(t))
    decreases p
  {
    match p
    case Top =>
    case InLeft(id, c, rg, sib, up) => ShapePlug(up, Fork(id, c, rg, t, sib));
    case InRight(id, c, rg, sib, up) => ShapePlug(up, Fork(id, c, rg, sib, t));
  }

  lemma {:induction false} ShapePlace<N, I>(p: Path<N, I>, t: Tree<N, I>, x: Range<I>)
    ensures PlaceBelow(PathShape(p), Shape(t), x) ==
            var q := PlaceBelow(p, t, x);
            if q.None? then None else Some(PathShape(q.value))
    decreases t
  {
    match t
    case Leaf =>
    case Fork(id, c, rg, l, r) =>
      ShapePlace(InLeft(id, c, rg, r, p), l, x);
      ShapePlace(InRight(id, c, rg, l, p), r, x);
  }

  lemma ShapeBlackened<N, I>(t: Tree<N, I>)
    ensures Shape(Blackened(t)) == Blackened(Shape(t))
  {
  }

  lemma ShapeUp<N, I>(p: Path<N, I>)
    requires !p.Top? && !p.up.Top?
    ensures !PathShape(p).Top? && PathShape(p).up == PathShape(p.up) && !PathShape(p).up.Top?
    ensures PathShape(p).up.sib == Shape(p.up.sib) && PathShape(p).up.up == PathShape(p.up.up)
  {
    var q := PathShape(p.up);
    assert q.up == PathShape(p.up.up) && q.sib == Shape(p.up.sib);
  }

  lemma ShapeTurned<N, I>(p: Path<N, I>, t: Tree<N, I>)
    requires !p.Top? && !p.up.Top? && t.Fork?
    ensures !PathShape(p).Top? && !PathShape(p).up.Top?
    ensures Shape(Outer(p, t)) == Outer(PathShape(p), Shape(t))
    ensures PathShape(TurnedDownPath(OuterPath(p, t))) == TurnedDownPath(OuterPath(PathShape(p), Shape(t)))
  {
    ShapeUp(p);
  }

  lemma ShapeRecoloured<N, I>(p: Path<N, I>, t: Tree<N, I>)
    requires !p.Top? && !p.up.Top? && p.up.sib.Fork?
    ensures !PathShape(p).Top? && !PathShape(p).up.Top? && PathShape(p).up.sib.Fork?
    ensures Shape(Recoloured(p, t)) == Recoloured(PathShape(p), Shape(t))
  {
    ShapeUp(p);
  }

  lemma {:induction false} ShapeRebalanced<N, I>(p: Path<N, I>, t: Tree<N, I>)
    requires t.Fork?
    ensures Shape(Rebalanced(p, t)) == Rebalanced(PathShape(p), Shape(t))
    decreases p
  {
    if !PathRed(p) || p.up.Top? {
      ShapePlug(p, t);
      ShapeBlackened(Plug(p, t));
    } else if IsRed(p.up.sib) {
      ShapeUp(p);
      ShapeRecoloured(p, t);
      ShapeRebalanced(p.up.up, Recoloured(p, t));
    } else {
      var q, u := TurnedDownPath(OuterPath(p, t)), Outer(p, t);
      ShapeUp(p);
      ShapeTurned(p, t);
      ShapePlug(q, u);
      ShapeBlackened(Plug(q, u));
    }
  }

  /** The shape of the new tree follows from that of the old. */
  lemma ShapeAdded<N, I>(t: Tree<N, I>, id: N, x: Range<I>)
    ensures Added(Shape(t), (), x) ==
            var u := Added(t, id, x);
            if u.None? then None else Some(Shape(u.value))
  {
    ShapePlace<N, I>(Top, t, x);
    var p := PlaceBelow(Top, t, x);
    if p.Some? {
      ShapeRebalanced(p.value, Fork(id, Red, x, Leaf, Leaf));
    }
  }

  // ---------- Runs of additions ----------

  /** The tree that a run of additions to an empty tree builds, up to the identities of the nodes; nothing
      if one of them is refused. */
  function Built<I>(xs: seq<Range<I>>): Option<Tree<(), I>>
    decreases |xs|
  {
    if xs == [] then Some(Leaf)
    else
      var t := Built(xs[..|xs| - 1]);
      if t.None? then None else Added(t.value, (), xs[|xs| - 1])
  }

  /** A run that is accepted was accepted all along. */
  lemma {:induction false} AcceptedBefore<I>(s: seq<Range<I>>, xs: seq<Range<I>>, n: nat)
    requires AddAll(s, xs).Some? && n <= |xs|
    ensures AddAll(s, xs[..n]).Some?
    decreases n
  {
    if n > 0 {
      assert xs[..n][1..] == xs[1..][..n - 1] && xs[..n][0] == xs[0];
      AcceptedBefore(InsertRange(s, xs[0]), xs[1..], n - 1);
    }
  }

  /** What is built is a red-black tree of the sorted ranges, and nothing is refused but overlaps. */
  lemma {:induction false} BuiltMeans<I>(xs: seq<Range<I>>)
    requires forall i :: 0 <= i < |xs| ==> xs[i].lo <= xs[i].hi
    ensures Built(xs).Some? <==> AddAll([], xs).Some?
    ensures Built(xs).Some? ==>
            var t := Built(xs).value;
            RedBlack(t) && Sorted(Ranges(t)) && AddAll([], xs) == Some(Ranges(t))
    decreases |xs|
  {
    if xs != [] {
      var n := |xs| - 1;
      BuiltMeans(xs[..n]);
      if Built(xs[..n]).Some? {
        assert xs[..n] + [xs[n]] == xs;
        AddAllNext([], xs[..n], xs[n]);
        AddedMeans(Built(xs[..n]).value, (), xs[n]);
      } else if AddAll([], xs).Some? {
        AcceptedBefore([], xs, n);
      }
    }
  }
}

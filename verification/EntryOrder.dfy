/** That the order of the entries decides what several entries at address zero do, and which of two
    neighbours answers at a shared end: runs of additions, followed through rebalancing. */
module EntryOrder {
  import opened Insertion
  import opened LineTables
  import opened Options
  import opened RangeSearch
  import opened RangeTree
  import opened Rebalance

  /** A tree of one node, and one with a black root. */
  function One<I>(c: Color, x: Range<I>): Tree<(), I> {
    Fork((), c, x, Leaf, Leaf)
  }

  function Three<I>(x: Range<I>, l: Tree<(), I>, r: Tree<(), I>): Tree<(), I> {
    Fork((), Black, x, l, r)
  }

  lemma BuiltNext<I>(xs: seq<Range<I>>, x: Range<I>, t: Tree<(), I>, p: Path<(), I>)
    requires Built(xs) == Some(t) && PlaceBelow(Top, t, x) == Some(p)
    ensures Built(xs + [x]) == Some(Rebalanced(p, One(Red, x)))
  {
    assert (xs + [x])[..|xs|] == xs;
  }

  /** The root comes first, then `f` behind it. */
  lemma OtherSecond<I>(x: Range<I>, f: Range<I>)
    requires x.lo == x.hi == 0 && f.lo == f.hi == 1
    ensures Built([x]) == Some(One(Black, x))
    ensures Built([x] + [f]) == Some(Three(x, Leaf, One(Red, f)))
  {
    BuiltNext([], x, Leaf, Top);
    assert [] + [x] == [x];
    var p := InRight((), Black, x, Leaf, Top);
    BuiltNext([x], f, One(Black, x), p);
    assert Plug(p, One(Red, f)) == Three(x, Leaf, One(Red, f));
  }

  lemma ZeroHung<I>(xs: seq<Range<I>>, x: Range<I>, r: Tree<(), I>, y: Range<I>)
    requires Built(xs) == Some(Three(x, Leaf, r)) && x.lo == x.hi == y.lo == y.hi == 0
    ensures Built(xs + [y]) == Some(Three(x, One(Red, y), r))
  {
    var p := InLeft((), Black, x, r, Top);
    assert PlaceBelow(p, Leaf, y) == Some(p);
    BuiltNext(xs, y, Three(x, Leaf, r), p);
    assert Plug(p, One(Red, y)) == Three(x, One(Red, y), r);
  }

  /** With a red sibling the next entry at zero is taken in by recolouring. */
  lemma ZeroRecoloured<I>(xs: seq<Range<I>>, x: Range<I>, y: Range<I>, f: Range<I>, z: Range<I>)
    requires Built(xs) == Some(Three(x, One(Red, y), One(Red, f)))
    requires x.lo == x.hi == y.lo == y.hi == z.lo == z.hi == 0
    ensures Built(xs + [z]) == Some(Three(x, Three(y, One(Red, z), Leaf), One(Black, f)))
  {
    var q := InLeft((), Black, x, One(Red, f), Top);
    var p := InLeft((), Red, y, Leaf, q);
    assert PlaceBelow(p, Leaf, z) == Some(p) && PlaceBelow(q, One(Red, y), z) == Some(p);
    BuiltNext(xs, z, Three(x, One(Red, y), One(Red, f)), p);
    assert Rebalanced(p, One(Red, z)) == Rebalanced(Top, Recoloured(p, One(Red, z)));
  }

  /** Without one, it pushes the first entry down. */
  lemma ZeroTurned<I>(xs: seq<Range<I>>, x: Range<I>, y: Range<I>, z: Range<I>)
    requires Built(xs) == Some(Three(x, One(Red, y), Leaf))
    requires x.lo == x.hi == y.lo == y.hi == z.lo == z.hi == 0
    ensures Built(xs + [z]) == Some(Three(y, One(Red, z), One(Red, x)))
  {
    var q := InLeft((), Black, x, Leaf, Top);
    var p := InLeft((), Red, y, Leaf, q);
    assert PlaceBelow(p, Leaf, z) == Some(p) && PlaceBelow(q, One(Red, y), z) == Some(p);
    BuiltNext(xs, z, Three(x, One(Red, y), Leaf), p);
    assert Plug(TurnedDownPath(p), One(Red, z)) == Three(y, One(Red, z), One(Red, x));
  }

  lemma OtherLast<I>(xs: seq<Range<I>>, x: Range<I>, y: Range<I>, z: Range<I>, f: Range<I>)
    requires Built(xs) == Some(Three(y, One(Red, z), One(Red, x)))
    requires x.lo == x.hi == y.lo == y.hi == 0 && f.lo == f.hi == 1
    ensures Built(xs + [f]) == Some(Three(y, One(Black, z), Three(x, Leaf, One(Red, f))))
  {
    var q := InRight((), Black, y, One(Red, z), Top);
    var p := InRight((), Red, x, Leaf, q);
    assert PlaceBelow(p, Leaf, f) == Some(p) && PlaceBelow(q, One(Red, x), f) == Some(p);
    BuiltNext(xs, f, Three(y, One(Red, z), One(Red, x)), p);
    assert Rebalanced(p, One(Red, f)) == Rebalanced(Top, Recoloured(p, One(Red, f)));
  }

  /** It matters in which order entries come: of the same four, three of them at zero, zero is on top if the
      other one comes early, and is not if it comes last. */
  lemma OrderMatters<I>(x: Range<I>, y: Range<I>, z: Range<I>, f: Range<I>)
    requires x.lo == x.hi == y.lo == y.hi == z.lo == z.hi == 0 && f.lo == f.hi == 1
    ensures OnTop([x] + [f] + [y] + [z]) && !OnTop([x] + [y] + [z] + [f])
  {
    OtherSecond(x, f);
    ZeroHung([x] + [f], x, One(Red, f), y);
    ZeroRecoloured([x] + [f] + [y], x, y, f, z);
    ZeroHung([x], x, Leaf, y);
    ZeroTurned([x] + [y], x, y, z);
    OtherLast([x] + [y] + [z], x, y, z, f);
    assert LowestOr(Three(x, Leaf, One(Red, f)), MAX_ADDR) == 0;
  }

  // ---------- Shared ends ----------

  lemma ShapeSearch<N, I>(t: Tree<N, I>, a: Addr)
    ensures Lookup(Shape(t), a) == Lookup(t, a)
  {
  }

  lemma SameMembers<T>(xs: seq<T>, ys: seq<T>)
    requires multiset(xs) == multiset(ys)
    ensures forall x :: x in xs <==> x in ys
  {
    assert forall x :: x in xs <==> x in multiset(xs);
    assert forall x :: x in ys <==> x in multiset(ys);
  }

  /** After any run of additions a search finds something exactly if some entry contains the address; then
      it answers with such an entry, and of several with the one that stands uppermost in the tree. */
  lemma SearchAfterRun<I>(xs: seq<Range<I>>, a: Addr)
    requires Built(xs).Some? && forall i :: 0 <= i < |xs| ==> xs[i].lo <= xs[i].hi
    ensures var t := Built(xs).value;
            && (Lookup(t, a).None? <==> forall x :: x in xs ==> !(x.lo <= a <= x.hi))
            && (Lookup(t, a).Some? ==> exists x :: x in xs && x.lo <= a <= x.hi && x.info == Lookup(t, a).value)
            && (Lookup(t, a).Some? ==> exists p, u :: Uppermost(t, p, u, a, Lookup(t, a).value))
  {
    var t := Built(xs).value;
    BuiltRanges(xs);
    LookupIsScan(t, a);
    LookupIsUppermost(t, a);
  }

  lemma BuiltRanges<I>(xs: seq<Range<I>>)
    requires Built(xs).Some? && forall i :: 0 <= i < |xs| ==> xs[i].lo <= xs[i].hi
    ensures var s := Ranges(Built(xs).value); Monotone(s) && forall x :: x in xs <==> x in s
  {
    BuiltMeans(xs);
    AddAllSorts(xs);
    SortedIsMonotone(Ranges(Built(xs).value));
    SameMembers(xs, Ranges(Built(xs).value));
  }

  lemma TwoEntered<I>(x: Range<I>, y: Range<I>)
    requires x.lo <= x.hi <= y.lo <= y.hi && x.lo < y.hi
    ensures Built([x] + [y]) == Some(Three(x, Leaf, One(Red, y)))
    ensures Built([y] + [x]) == Some(Three(y, One(Red, x), Leaf))
  {
    BuiltNext([], x, Leaf, Top);
    BuiltNext([], y, Leaf, Top);
    assert [] + [x] == [x] && [] + [y] == [y];
    var p, q := InRight((), Black, x, Leaf, Top), InLeft((), Black, y, Leaf, Top);
    assert PlaceBelow(p, Leaf, y) == Some(p) && PlaceBelow(q, Leaf, x) == Some(q);
    BuiltNext([x], y, One(Black, x), p);
    BuiltNext([y], x, One(Black, y), q);
    assert Plug(p, One(Red, y)) == Three(x, Leaf, One(Red, y));
    assert Plug(q, One(Red, x)) == Three(y, One(Red, x), Leaf);
  }

  /** At the shared end of two neighbouring ranges, alone in the map, the first entered answers. */
  lemma SharedEndOfTwo<I>(x: Range<I>, y: Range<I>)
    requires x.lo <= x.hi == y.lo <= y.hi && x.lo < y.hi
    ensures Built([x] + [y]).Some? && Lookup(Built([x] + [y]).value, x.hi) == Some(x.info)
    ensures Built([y] + [x]).Some? && Lookup(Built([y] + [x]).value, x.hi) == Some(y.info)
  {
    TwoEntered(x, y);
  }

  /** But a later one can come to lie above it: of three neighbours entered in ascending order, the second
      answers at both of its ends. */
  lemma SharedEndsOfThree<I>(x: Range<I>, y: Range<I>, z: Range<I>)
    requires x.lo < x.hi == y.lo < y.hi == z.lo < z.hi
    ensures Built([x] + [y] + [z]).Some?
    ensures Lookup(Built([x] + [y] + [z]).value, x.hi) == Some(y.info)
    ensures Lookup(Built([x] + [y] + [z]).value, y.hi) == Some(y.info)
  {
    TwoEntered(x, y);
    var q := InRight((), Black, x, Leaf, Top);
    var p := InRight((), Red, y, Leaf, q);
    assert PlaceBelow(p, Leaf, z) == Some(p) && PlaceBelow(q, One(Red, y), z) == Some(p);
    BuiltNext([x] + [y], z, Three(x, Leaf, One(Red, y)), p);
    assert Plug(TurnedDownPath(p), One(Red, z)) == Three(y, One(Red, x), One(Red, z));
  }
}

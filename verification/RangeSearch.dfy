/** What adding, patching and finding mean for the in-order sequence of ranges of a tree. */
module RangeSearch {
  import opened Options
  import opened Powers
  import opened RangeTree

  // ---------- Adding ----------

  /** The test by which the map refuses a range: ranges are half-open here. */
  predicate Overlaps<I>(x: Range<I>, r: Range<I>) {
    !(x.hi <= r.lo) && !(x.lo >= r.hi)
  }

  /** The address is in the range, whose end is exclusive here. */
  predicate Within<I>(r: Range<I>, a: Addr) {
    r.lo <= a < r.hi
  }

  /** What the test means: two ranges that are not points have an address in common, or a point lies
      strictly inside the other; two points never overlap. */
  lemma OverlapsMeans<I>(x: Range<I>, r: Range<I>)
    requires x.lo <= x.hi && r.lo <= r.hi
    ensures x.lo < x.hi && r.lo < r.hi ==>
            (Overlaps(x, r) <==> exists a: Addr :: Within(x, a) && Within(r, a))
    ensures x.lo == x.hi ==> (Overlaps(x, r) <==> r.lo < x.lo < r.hi)
    ensures r.lo == r.hi ==> (Overlaps(x, r) <==> x.lo < r.lo < x.hi)
  {
    if x.lo < x.hi && r.lo < r.hi && Overlaps(x, r) {
      var a: Addr := if x.lo < r.lo then r.lo else x.lo;
      assert Within(x, a) && Within(r, a);
    }
  }

  /** Each range ends at or before the start of every later one. */
  ghost predicate Sorted<I>(s: seq<Range<I>>) {
    && (forall i :: 0 <= i < |s| ==> s[i].lo <= s[i].hi)
    && (forall i, j :: 0 <= i < j < |s| ==> s[i].hi <= s[j].lo)
  }

  ghost predicate Accepts<I>(s: seq<Range<I>>, x: Range<I>) {
    forall i :: 0 <= i < |s| ==> !Overlaps(x, s[i])
  }

  /** How many ranges `x` goes behind: those that do not start at or after its end. */
  function InsertPos<I>(s: seq<Range<I>>, x: Range<I>): (k: nat)
    ensures k <= |s|
    ensures forall i :: 0 <= i < k ==> !(x.hi <= s[i].lo)
    ensures k < |s| ==> x.hi <= s[k].lo
  {
    if s == [] || x.hi <= s[0].lo then 0 else 1 + InsertPos(s[1..], x)
  }

  function InsertRange<I>(s: seq<Range<I>>, x: Range<I>): seq<Range<I>> {
    var k := InsertPos(s, x);
    s[..k] + [x] + s[k..]
  }

  /** The position that a search path finds is the position of `InsertRange`. */
  lemma InsertRangeAt<I>(b: seq<Range<I>>, x: Range<I>, a: seq<Range<I>>)
    requires forall i :: 0 <= i < |b| ==> !(x.hi <= b[i].lo)
    requires a == [] || x.hi <= a[0].lo
    ensures InsertPos(b + a, x) == |b| && InsertRange(b + a, x) == b + [x] + a
  {
    var k := InsertPos(b + a, x);
    assert forall i :: 0 <= i < |b| ==> (b + a)[i] == b[i];
    assert a != [] ==> (b + a)[|b|] == a[0];
    assert k == |b|;
    assert (b + a)[..k] == b && (b + a)[k..] == a;
  }

  lemma InsertRangeElements<I>(s: seq<Range<I>>, x: Range<I>)
    ensures multiset(InsertRange(s, x)) == multiset(s) + multiset{x}
  {
    var k := InsertPos(s, x);
    assert s == s[..k] + s[k..];
  }

  lemma SortedAround<I>(b: seq<Range<I>>, x: Range<I>, a: seq<Range<I>>)
    requires Sorted(b + a) && x.lo <= x.hi
    requires (forall i :: 0 <= i < |b| ==> b[i].hi <= x.lo) && forall i :: 0 <= i < |a| ==> x.hi <= a[i].lo
    ensures Sorted(b + [x] + a)
  {
    var s, u := b + a, b + [x] + a;
    forall i | 0 <= i < |u| && i != |b| ensures u[i] == s[if i < |b| then i else i - 1] {}
  }

  lemma PlaceOrder<I>(s: seq<Range<I>>, x: Range<I>)
    requires Sorted(s) && Accepts(s, x)
    ensures forall i :: 0 <= i < InsertPos(s, x) ==> s[i].hi <= x.lo
    ensures forall j :: InsertPos(s, x) <= j < |s| ==> x.hi <= s[j].lo
  {
    var k := InsertPos(s, x);
    forall i | 0 <= i < k ensures s[i].hi <= x.lo {
      assert !Overlaps(x, s[i]);
    }
    forall j | k <= j < |s| ensures x.hi <= s[j].lo {
      if k < j { assert s[k].hi <= s[j].lo; }
    }
  }

  lemma SortedPlace<I>(s: seq<Range<I>>, x: Range<I>, k: nat)
    requires Sorted(s) && x.lo <= x.hi && k <= |s|
    requires (forall i :: 0 <= i < k ==> s[i].hi <= x.lo) && forall j :: k <= j < |s| ==> x.hi <= s[j].lo
    ensures Sorted(s[..k] + [x] + s[k..])
  {
    var b, a := s[..k], s[k..];
    assert b + a == s;
    forall i | 0 <= i < |a| ensures x.hi <= a[i].lo {
      assert a[i] == s[k + i];
    }
    forall i | 0 <= i < |b| ensures b[i].hi <= x.lo {
      assert b[i] == s[i];
    }
    SortedAround(b, x, a);
  }

  /** An accepted range keeps the sequence sorted. */
  lemma InsertRangeSorted<I>(s: seq<Range<I>>, x: Range<I>)
    requires Sorted(s) && Accepts(s, x) && x.lo <= x.hi
    ensures Sorted(InsertRange(s, x))
  {
    PlaceOrder(s, x);
    SortedPlace(s, x, InsertPos(s, x));
  }

  // ---------- The descent to the place of a new range ----------

  /** Everything before the place ends at or before `x`; everything after starts at or after it. */
  ghost predicate Fits<N, I>(p: Path<N, I>, x: Range<I>) {
    && (forall i :: 0 <= i < |Before(p)| ==> Before(p)[i].hi <= x.lo && !(x.hi <= Before(p)[i].lo))
    && (forall i :: 0 <= i < |After(p)| ==> x.hi <= After(p)[i].lo)
  }

  lemma SortedParts<I>(b: seq<Range<I>>, l: seq<Range<I>>, rg: Range<I>, r: seq<Range<I>>, a: seq<Range<I>>)
    requires Sorted(b + (l + [rg] + r) + a)
    ensures rg.lo <= rg.hi
    ensures forall i :: 0 <= i < |l| ==> l[i].lo <= l[i].hi <= rg.lo
    ensures forall i :: 0 <= i < |r| ==> rg.hi <= r[i].lo
  {
    var s := b + (l + [rg] + r) + a;
    assert s[|b| + |l|] == rg;
    assert forall i :: 0 <= i < |l| ==> l[i] == s[|b| + i];
    assert forall i :: 0 <= i < |r| ==> r[i] == s[|b| + |l| + 1 + i];
  }

  lemma FitsLeft<N, I>(p: Path<N, I>, t: Tree<N, I>, x: Range<I>)
    requires t.Fork? && Sorted(Before(p) + Ranges(t) + After(p))
    requires Fits(p, x) && x.lo <= x.hi <= t.range.lo
    ensures Fits(InLeft(t.id, t.color, t.range, t.right, p), x)
  {
    SortedParts(Before(p), Ranges(t.left), t.range, Ranges(t.right), After(p));
  }

  lemma FitsRight<N, I>(p: Path<N, I>, t: Tree<N, I>, x: Range<I>)
    requires t.Fork? && Sorted(Before(p) + Ranges(t) + After(p))
    requires Fits(p, x) && x.lo <= x.hi && !(x.hi <= t.range.lo) && x.lo >= t.range.hi
    ensures Fits(InRight(t.id, t.color, t.range, t.left, p), x)
  {
    SortedParts(Before(p), Ranges(t.left), t.range, Ranges(t.right), After(p));
  }

  /** The path ends at the place where `InsertRange` puts the new range, and nothing overlaps it. */
  lemma FitsIsPlace<N, I>(p: Path<N, I>, x: Range<I>)
    requires Fits(p, x)
    ensures Accepts(Before(p) + After(p), x)
    ensures InsertPos(Before(p) + After(p), x) == |Before(p)|
    ensures InsertRange(Before(p) + After(p), x) == Before(p) + [x] + After(p)
  {
    InsertRangeAt(Before(p), x, After(p));
  }

  lemma OverlapRefused<N, I>(p: Path<N, I>, t: Tree<N, I>, x: Range<I>)
    requires t.Fork? && Overlaps(x, t.range)
    ensures !Accepts(Before(p) + Ranges(t) + After(p), x)
  {
    assert (Before(p) + Ranges(t) + After(p))[|Before(p)| + |Ranges(t.left)|] == t.range;
  }

  /** The path along which the descent for `x` goes below `p`, or nothing if it meets an overlap. */
  function PlaceBelow<N, I>(p: Path<N, I>, t: Tree<N, I>, x: Range<I>): Option<Path<N, I>>
    decreases t
  {
    match t
    case Leaf => Some(p)
    case Fork(id, c, rg, l, r) =>
      if x.hi <= rg.lo then PlaceBelow(InLeft(id, c, rg, r, p), l, x)
      else if x.lo >= rg.hi then PlaceBelow(InRight(id, c, rg, l, p), r, x)
      else None
  }

  lemma {:induction false} PlaceBelowFits<N, I>(p: Path<N, I>, t: Tree<N, I>, x: Range<I>)
    requires Sorted(Before(p) + Ranges(t) + After(p)) && Fits(p, x) && x.lo <= x.hi
    ensures PlaceBelow(p, t, x).None? ==> !Accepts(Before(p) + Ranges(t) + After(p), x)
    ensures PlaceBelow(p, t, x).Some? ==> Fits(PlaceBelow(p, t, x).value, x)
    ensures PlaceBelow(p, t, x).Some? ==> Plug(PlaceBelow(p, t, x).value, Leaf) == Plug(p, t)
    decreases t
  {
    match t
    case Leaf =>
    case Fork(id, c, rg, l, r) =>
      if x.hi <= rg.lo {
        FitsLeft(p, t, x);
        BeforeAfterLeft(p, t);
        PlaceBelowFits(InLeft(id, c, rg, r, p), l, x);
      } else if x.lo >= rg.hi {
        FitsRight(p, t, x);
        BeforeAfterRight(p, t);
        PlaceBelowFits(InRight(id, c, rg, l, p), r, x);
      } else {
        OverlapRefused(p, t, x);
      }
  }

  lemma BeforeAfterLeft<N, I>(p: Path<N, I>, t: Tree<N, I>)
    requires t.Fork?
    ensures var q := InLeft(t.id, t.color, t.range, t.right, p);
            Before(q) + Ranges(t.left) + After(q) == Before(p) + Ranges(t) + After(p)
  {
  }

  lemma BeforeAfterRight<N, I>(p: Path<N, I>, t: Tree<N, I>)
    requires t.Fork?
    ensures var q := InRight(t.id, t.color, t.range, t.left, p);
            Before(q) + Ranges(t.right) + After(q) == Before(p) + Ranges(t) + After(p)
  {
  }

  lemma PlugLeaf<N, I>(p: Path<N, I>)
    ensures Ranges(Plug(p, Leaf)) == Before(p) + After(p)
  {
    PlugRanges(p, Leaf);
    assert Before(p) + [] == Before(p);
  }

  lemma LeafPlace<N, I>(p: Path<N, I>, x: Range<I>)
    requires Fits(p, x)
    ensures Accepts(Ranges(Plug(p, Leaf)), x)
    ensures InsertPos(Ranges(Plug(p, Leaf)), x) == |Before(p)|
    ensures InsertRange(Ranges(Plug(p, Leaf)), x) == Before(p) + [x] + After(p)
  {
    PlugLeaf(p);
    FitsIsPlace(p, x);
  }

  /** One root-to-leaf path decides: the descent stops early exactly when some stored range overlaps
      the new one, and otherwise ends where `InsertRange` puts it. */
  lemma PlaceIsInsertion<N, I>(t: Tree<N, I>, x: Range<I>)
    requires Sorted(Ranges(t)) && x.lo <= x.hi
    ensures PlaceBelow(Top, t, x).None? <==> !Accepts(Ranges(t), x)
    ensures PlaceBelow(Top, t, x).Some? ==>
            var p := PlaceBelow(Top, t, x).value;
            Plug(p, Leaf) == t && Before(p) + [x] + After(p) == InsertRange(Ranges(t), x) &&
            |Before(p)| == InsertPos(Ranges(t), x)
  {
    assert Before<N, I>(Top) + Ranges(t) + After<N, I>(Top) == Ranges(t);
    PlaceBelowFits(Top, t, x);
    if PlaceBelow(Top, t, x).Some? {
      LeafPlace(PlaceBelow(Top, t, x).value, x);
    }
  }

  /** A whole run of additions, each refused when it overlaps something stored. */
  ghost function AddAll<I>(s: seq<Range<I>>, xs: seq<Range<I>>): Option<seq<Range<I>>>
    decreases |xs|
  {
    if xs == [] then Some(s)
    else if exists r :: r in s && Overlaps(xs[0], r) then None
    else AddAll(InsertRange(s, xs[0]), xs[1..])
  }

  /** `xs` has no overlap with `m`, nor any of its ranges with an earlier one. */
  ghost predicate Clear<I>(m: multiset<Range<I>>, xs: seq<Range<I>>)
    decreases |xs|
  {
    xs == [] ||
    ((forall r :: r in m ==> !Overlaps(xs[0], r)) && Clear(m + multiset{xs[0]}, xs[1..]))
  }

  /** `Clear`, written out over positions. */
  ghost predicate Pairwise<I>(m: multiset<Range<I>>, xs: seq<Range<I>>) {
    && (forall i, r :: 0 <= i < |xs| && r in m ==> !Overlaps(xs[i], r))
    && (forall i, j :: 0 <= i < j < |xs| ==> !Overlaps(xs[j], xs[i]))
  }

  lemma PairwiseStep<I>(m: multiset<Range<I>>, xs: seq<Range<I>>)
    requires xs != []
    ensures Pairwise(m, xs) <==>
            (forall r :: r in m ==> !Overlaps(xs[0], r)) && Pairwise(m + multiset{xs[0]}, xs[1..])
  {
    var rest, n := xs[1..], m + multiset{xs[0]};
    assert forall i :: 0 <= i < |rest| ==> rest[i] == xs[i + 1];
    assert forall i :: 1 <= i < |xs| ==> xs[i] == rest[i - 1];
    assert forall r :: r in n <==> r in m || r == xs[0];
    if Pairwise(m, xs) {
      forall i, r | 0 <= i < |rest| && r in n ensures !Overlaps(rest[i], r) {
        assert rest[i] == xs[i + 1];
      }
    }
    if (forall r :: r in m ==> !Overlaps(xs[0], r)) && Pairwise(n, rest) {
      forall i, j | 0 <= i < j < |xs| ensures !Overlaps(xs[j], xs[i]) {
        assert xs[j] == rest[j - 1];
      }
    }
  }

  lemma {:induction false} ClearIsPairwise<I>(m: multiset<Range<I>>, xs: seq<Range<I>>)
    ensures Clear(m, xs) <==> Pairwise(m, xs)
    decreases |xs|
  {
    if xs != [] {
      PairwiseStep(m, xs);
      ClearIsPairwise(m + multiset{xs[0]}, xs[1..]);
    }
  }

  lemma FirstAndRest<T>(m: multiset<T>, xs: seq<T>)
    requires xs != []
    ensures m + multiset{xs[0]} + multiset(xs[1..]) == m + multiset(xs)
  {
    assert xs == [xs[0]] + xs[1..];
  }

  lemma {:induction false} AddAllStep<I>(s: seq<Range<I>>, xs: seq<Range<I>>)
    requires Sorted(s) && forall i :: 0 <= i < |xs| ==> xs[i].lo <= xs[i].hi
    ensures AddAll(s, xs).Some? <==> Clear(multiset(s), xs)
    ensures AddAll(s, xs).Some? ==>
            Sorted(AddAll(s, xs).value) && multiset(AddAll(s, xs).value) == multiset(s) + multiset(xs)
    decreases |xs|
  {
    if xs == [] {
    } else {
      var x, rest := xs[0], xs[1..];
      assert forall r :: r in s <==> r in multiset(s);
      if !exists r :: r in s && Overlaps(x, r) {
        InsertRangeSorted(s, x);
        InsertRangeElements(s, x);
        AddAllStep(InsertRange(s, x), rest);
        FirstAndRest(multiset(s), xs);
      }
    }
  }

  lemma {:induction false} AddAllNext<I>(s: seq<Range<I>>, xs: seq<Range<I>>, x: Range<I>)
    requires AddAll(s, xs).Some?
    ensures var u := AddAll(s, xs).value;
            AddAll(s, xs + [x]) == if Accepts(u, x) then Some(InsertRange(u, x)) else None
    decreases |xs|
  {
    if xs == [] {
      assert xs + [x] == [x] && [x][1..] == [];
      assert (exists r :: r in s && Overlaps(x, r)) <==> !Accepts(s, x);
      if Accepts(s, x) {
        assert AddAll(InsertRange(s, x), []) == Some(InsertRange(s, x));
      }
    } else {
      assert (xs + [x])[0] == xs[0] && (xs + [x])[1..] == xs[1..] + [x];
      AddAllNext(InsertRange(s, xs[0]), xs[1..], x);
    }
  }

  /** Whatever order ranges arrive in, the run is refused exactly when two of them overlap, and an
      accepted run leaves all of them, and only them, in sorted order. */
  lemma AddAllSorts<I>(xs: seq<Range<I>>)
    requires forall i :: 0 <= i < |xs| ==> xs[i].lo <= xs[i].hi
    ensures AddAll([], xs).Some? <==> forall i, j :: 0 <= i < j < |xs| ==> !Overlaps(xs[j], xs[i])
    ensures AddAll([], xs).Some? ==>
            Sorted(AddAll([], xs).value) && multiset(AddAll([], xs).value) == multiset(xs)
  {
    AddAllStep([], xs);
    ClearIsPairwise(multiset([]), xs);
  }

  // ---------- Finding ----------

  predicate Covers<I>(r: Range<I>, a: Addr) {
    r.lo <= a <= r.hi
  }

  /** The search loop as a function of the tree. */
  function Lookup<N, I>(t: Tree<N, I>, a: Addr): Option<I> {
    match t
    case Leaf => None
    case Fork(_, _, rg, l, r) =>
      if a < rg.lo then Lookup(l, a) else if a > rg.hi then Lookup(r, a) else Some(rg.info)
  }

  /** Both ends of the ranges are in ascending order. */
  ghost predicate Monotone<I>(s: seq<Range<I>>) {
    forall i, j :: 0 <= i < j < |s| ==> s[i].lo <= s[j].lo && s[i].hi <= s[j].hi
  }

  lemma MonotoneParts<I>(sl: seq<Range<I>>, rg: Range<I>, sr: seq<Range<I>>)
    requires Monotone(sl + [rg] + sr)
    ensures Monotone(sl) && Monotone(sr)
    ensures forall r :: r in sl ==> r.hi <= rg.hi
    ensures forall r :: r in sr ==> rg.lo <= r.lo
  {
    var s := sl + [rg] + sr;
    assert s[|sl|] == rg;
    assert forall i :: 0 <= i < |sl| ==> sl[i] == s[i];
    assert forall i :: 0 <= i < |sr| ==> sr[i] == s[|sl| + 1 + i];
  }

  /** Looking at one root-to-leaf path finds what a scan of every range finds. */
  lemma {:induction false} LookupIsScan<N, I>(t: Tree<N, I>, a: Addr)
    requires Monotone(Ranges(t))
    ensures Lookup(t, a).None? <==> forall r :: r in Ranges(t) ==> !Covers(r, a)
    ensures Lookup(t, a).Some? ==>
            exists r :: r in Ranges(t) && Covers(r, a) && r.info == Lookup(t, a).value
  {
    match t
    case Leaf =>
    case Fork(id, c, rg, l, r) =>
      MonotoneParts(Ranges(l), rg, Ranges(r));
      assert rg in Ranges(t);
      if a < rg.lo {
        LookupIsScan(l, a);
      } else if a > rg.hi {
        LookupIsScan(r, a);
      } else {
        assert Covers(rg, a);
      }
  }

  /** No range on the way down to a subtree contains the address. */
  predicate PathMisses<N, I>(p: Path<N, I>, a: Addr) {
    p.Top? || ((a < p.range.lo || p.range.hi < a) && PathMisses(p.up, a))
  }

  /** The node `u` at the end of `p` is the uppermost of those whose range contains the address, and its
      information is `x`. */
  ghost predicate Uppermost<N, I>(t: Tree<N, I>, p: Path<N, I>, u: Tree<N, I>, a: Addr, x: I) {
    Plug(p, u) == t && u.Fork? && u.range.lo <= a <= u.range.hi && u.range.info == x && PathMisses(p, a)
  }

  lemma {:induction false} LookupBelow<N, I>(p: Path<N, I>, t: Tree<N, I>, a: Addr)
    returns (q: Path<N, I>, u: Tree<N, I>)
    requires PathMisses(p, a) && Lookup(t, a).Some?
    ensures Uppermost(Plug(p, t), q, u, a, Lookup(t, a).value)
    decreases t
  {
    if a < t.range.lo {
      q, u := LookupBelow(InLeft(t.id, t.color, t.range, t.right, p), t.left, a);
    } else if a > t.range.hi {
      q, u := LookupBelow(InRight(t.id, t.color, t.range, t.left, p), t.right, a);
    } else {
      q, u := p, t;
    }
  }

  /** Of several ranges that contain the address, as two do at a shared end, the search answers with the
      uppermost, whatever the tree. */
  lemma LookupIsUppermost<N, I>(t: Tree<N, I>, a: Addr)
    ensures Lookup(t, a).Some? ==> exists p, u :: Uppermost(t, p, u, a, Lookup(t, a).value)
  {
    if Lookup(t, a).Some? {
      var p, u := LookupBelow(Top, t, a);
    }
  }

  lemma SortedIsMonotone<I>(s: seq<Range<I>>)
    requires Sorted(s)
    ensures Monotone(s)
  {
    forall i, j | 0 <= i < j < |s| ensures s[i].lo <= s[j].lo && s[i].hi <= s[j].hi {
      assert s[i].lo <= s[i].hi <= s[j].lo <= s[j].hi;
    }
  }

  // ---------- Patching ----------

  /** `maxAddress - 1` in 64-bit arithmetic. */
  function Pred(a: Addr): Addr {
    if a == 0 then MAX_ADDR else a - 1
  }

  function LowestOr<N, I>(t: Tree<N, I>, default: Addr): Addr {
    match t
    case Leaf => default
    case Fork(_, _, rg, l, _) => LowestOr(l, rg.lo)
  }

  /** The tree after patching, where `max` bounds everything in it. */
  function Patched<N, I>(t: Tree<N, I>, max: Addr): Tree<N, I> {
    match t
    case Leaf => Leaf
    case Fork(id, c, rg, l, r) =>
      Fork(id, c, rg.(hi := Pred(LowestOr(r, max))), Patched(l, rg.lo), Patched(r, max))
  }

  function NextLow<I>(s: seq<Range<I>>, i: nat, max: Addr): Addr
    requires i < |s|
  {
    if i + 1 < |s| then s[i + 1].lo else max
  }

  /** Every range made to end just below the start of the next one. */
  function PatchSeq<I>(s: seq<Range<I>>, max: Addr): seq<Range<I>> {
    seq(|s|, i requires 0 <= i < |s| => s[i].(hi := Pred(NextLow(s, i, max))))
  }

  lemma PatchSeqConcat<I>(sl: seq<Range<I>>, rg: Range<I>, sr: seq<Range<I>>, max: Addr)
    ensures PatchSeq(sl + [rg] + sr, max) ==
            PatchSeq(sl, rg.lo) + [rg.(hi := Pred(if sr == [] then max else sr[0].lo))] + PatchSeq(sr, max)
  {
    var s := sl + [rg] + sr;
    var q := PatchSeq(sl, rg.lo) + [rg.(hi := Pred(if sr == [] then max else sr[0].lo))] + PatchSeq(sr, max);
    forall i | 0 <= i < |s| ensures PatchSeq(s, max)[i] == q[i] {
      if i < |sl| {
        assert s[i] == sl[i] && NextLow(s, i, max) == NextLow(sl, i, rg.lo);
      } else if i > |sl| {
        var j := i - |sl| - 1;
        assert s[i] == sr[j] && NextLow(s, i, max) == NextLow(sr, j, max);
      }
    }
  }

  lemma {:induction false} LowestIsFirst<N, I>(t: Tree<N, I>, default: Addr)
    ensures LowestOr(t, default) == if Ranges(t) == [] then default else Ranges(t)[0].lo
  {
    match t
    case Leaf =>
    case Fork(_, _, rg, l, r) => LowestIsFirst(l, rg.lo);
  }

  /** Patching from the root down, with bounds passed along, is patching the in-order sequence. */
  lemma {:induction false} PatchedRanges<N, I>(t: Tree<N, I>, max: Addr)
    ensures Ranges(Patched(t, max)) == PatchSeq(Ranges(t), max)
  {
    match t
    case Leaf =>
    case Fork(id, c, rg, l, r) =>
      PatchedRanges(l, rg.lo);
      PatchedRanges(r, max);
      LowestIsFirst(r, max);
      PatchSeqConcat(Ranges(l), rg, Ranges(r), max);
  }

  /** Patching touches neither the nodes nor the balance of the tree. */
  lemma {:induction false} PatchedShape<N, I>(t: Tree<N, I>, max: Addr)
    ensures Ids(Patched(t, max)) == Ids(t) && (Distinct(Patched(t, max)) <==> Distinct(t))
    ensures BlackHeight(Patched(t, max)) == BlackHeight(t)
    ensures Balanced(Patched(t, max)) <==> Balanced(t)
    ensures NoRedRed(Patched(t, max)) <==> NoRedRed(t)
    ensures IsRed(Patched(t, max)) <==> IsRed(t)
  {
    match t
    case Leaf =>
    case Fork(id, c, rg, l, r) =>
      PatchedShape(l, rg.lo);
      PatchedShape(r, max);
  }

  /** Low addresses in ascending order: what adding points leaves behind. */
  ghost predicate Ascending<I>(s: seq<Range<I>>) {
    forall i, j :: 0 <= i < j < |s| ==> s[i].lo <= s[j].lo
  }

  ghost predicate Tiles<I>(s: seq<Range<I>>, max: Addr) {
    forall i :: 0 <= i < |s| ==> s[i].hi + 1 == NextLow(s, i, max)
  }

  /** The patched ranges tile the addresses from the lowest one up to the maximum, exactly when no
      range but the first starts at address zero (the wrap-around of `maxAddress - 1`). */
  lemma PatchTiles<N, I>(t: Tree<N, I>, max: Addr)
    requires max > 0
    ensures Tiles(Ranges(Patched(t, max)), max) <==>
            forall i :: 1 <= i < |Ranges(t)| ==> Ranges(t)[i].lo != 0
  {
    PatchedRanges(t, max);
    PatchSeqTiles(Ranges(t), max);
  }

  lemma PatchSeqTiles<I>(s: seq<Range<I>>, max: Addr)
    requires max > 0
    ensures Tiles(PatchSeq(s, max), max) <==> forall i :: 1 <= i < |s| ==> s[i].lo != 0
  {
    var p := PatchSeq(s, max);
    forall i | 0 <= i < |s| ensures p[i].hi + 1 == NextLow(p, i, max) <==> NextLow(s, i, max) != 0 {
      assert NextLow(p, i, max) == NextLow(s, i, max);
    }
    if Tiles(p, max) {
      forall i | 1 <= i < |s| ensures s[i].lo != 0 {
        assert NextLow(s, i - 1, max) == s[i].lo;
      }
    }
  }

  /** `i` is the last range that starts at or below `a`. */
  ghost predicate IsPredecessor<I>(s: seq<Range<I>>, a: Addr, i: int) {
    0 <= i < |s| && s[i].lo <= a && forall j :: i < j < |s| ==> a < s[j].lo
  }

  /** A patched range contains an address exactly when it is the last that starts at or below it. */
  lemma PatchSeqCovers<I>(s: seq<Range<I>>, max: Addr, a: Addr, i: nat)
    requires Ascending(s) && i < |s| && a < max
    requires forall k :: 1 <= k < |s| ==> s[k].lo != 0
    ensures Covers(PatchSeq(s, max)[i], a) <==> IsPredecessor(s, a, i)
  {
    if i + 1 < |s| && a < s[i + 1].lo {
      forall j | i < j < |s| ensures a < s[j].lo {
        if i + 1 < j { assert s[i + 1].lo <= s[j].lo; }
      }
    }
  }

  // ---------- Height ----------

  function Height<N, I>(t: Tree<N, I>): nat {
    match t
    case Leaf => 0
    case Fork(_, _, _, l, r) => 1 + if Height(l) > Height(r) then Height(l) else Height(r)
  }

  lemma {:induction false} BlackHeightBounds<N, I>(t: Tree<N, I>)
    requires Balanced(t) && NoRedRed(t)
    ensures Height(t) <= 2 * BlackHeight(t) + if IsRed(t) then 1 else 0
    ensures Pow2(BlackHeight(t)) <= |Ranges(t)| + 1
  {
    match t
    case Leaf =>
    case Fork(_, _, _, l, r) =>
      BlackHeightBounds(l);
      BlackHeightBounds(r);
  }

  lemma SquareMonotone(a: nat, b: nat)
    requires a <= b
    ensures a * a <= b * b
  {
    assert a * a <= a * b <= b * b;
  }

  /** A red-black tree of `n` ranges has height at most 2 log2(n + 1). */
  lemma HeightBound<N, I>(t: Tree<N, I>)
    requires RedBlack(t)
    ensures Pow2(Height(t)) <= (|Ranges(t)| + 1) * (|Ranges(t)| + 1)
  {
    var h := BlackHeight(t);
    BlackHeightBounds(t);
    Pow2Monotone(Height(t), 2 * h);
    Pow2Double(h);
    SquareMonotone(Pow2(h), |Ranges(t)| + 1);
  }
}

/** Line tables: points that are entered in any order and patched afterwards, and what a search then
    answers. Entries at address zero make the patched ends wrap around; whether that spoils answers can
    be read off the tree before it is patched, and is a function of the entries. */
module LineTables {
  import opened AddrRangeMap
  import opened Insertion
  import opened LeftEnd
  import opened Options
  import opened Powers
  import opened RangeSearch
  import opened RangeTree
  import opened Sequences

  // ---------- The promised answer ----------

  lemma {:induction false} LastAtOrBelow<I>(s: seq<Range<I>>, a: Addr) returns (i: nat)
    requires exists k :: 0 <= k < |s| && s[k].lo <= a
    ensures IsPredecessor(s, a, i)
  {
    var n := |s| - 1;
    if s[n].lo <= a {
      i := n;
    } else {
      i := LastAtOrBelow(s[..n], a);
      assert s[..n][i] == s[i];
      forall j | i < j < |s| ensures a < s[j].lo {
        if j < n { assert s[..n][j] == s[j]; }
      }
    }
  }

  /** Points never overlap under the half-open test, so a line table accepts all its entries. */
  lemma PointsAccepted<I>(xs: seq<Range<I>>)
    requires Points(xs)
    ensures AddAll([], xs).Some?
  {
    AddAllSorts(xs);
  }

  /** Of the entries at or below `a` the one with the greatest address, and of several at this address
      the one that was entered first. */
  function Nearest<I>(xs: seq<Range<I>>, a: Addr): Option<Range<I>>
    decreases |xs|
  {
    if xs == [] then None
    else
      var best, x := Nearest(xs[..|xs| - 1], a), xs[|xs| - 1];
      if x.lo <= a && (best.None? || best.value.lo < x.lo) then Some(x) else best
  }

  lemma {:induction false} NearestMeans<I>(xs: seq<Range<I>>, a: Addr)
    ensures Nearest(xs, a).None? ==> forall i :: 0 <= i < |xs| ==> a < xs[i].lo
    ensures Nearest(xs, a).Some? ==>
            var x := Nearest(xs, a).value;
            x.lo <= a && (forall i :: 0 <= i < |xs| && xs[i].lo <= a ==> xs[i].lo <= x.lo) &&
            exists i :: 0 <= i < |xs| && xs[i] == x && forall j :: 0 <= j < i ==> xs[j].lo != x.lo
    decreases |xs|
  {
    if xs != [] {
      var n := |xs| - 1;
      NearestMeans(xs[..n], a);
      assert forall i :: 0 <= i < n ==> xs[..n][i] == xs[i];
      if Nearest(xs[..n], a).Some? {
        var x := Nearest(xs[..n], a).value;
        var i :| 0 <= i < n && xs[..n][i] == x && forall j :: 0 <= j < i ==> xs[..n][j].lo != x.lo;
        assert xs[i] == x && forall j :: 0 <= j < i ==> xs[j].lo != x.lo;
      }
    }
  }

  /** The last of the ranges that start at or below `a`. */
  function LastBelow<I>(s: seq<Range<I>>, a: Addr): Option<Range<I>>
    decreases |s|
  {
    if s == [] then None
    else if s[|s| - 1].lo <= a then Some(s[|s| - 1])
    else LastBelow(s[..|s| - 1], a)
  }

  lemma {:induction false} LastBelowIs<I>(s: seq<Range<I>>, a: Addr, i: nat)
    requires IsPredecessor(s, a, i)
    ensures LastBelow(s, a) == Some(s[i])
    decreases |s|
  {
    var n := |s| - 1;
    if i < n {
      assert forall j :: 0 <= j < n ==> s[..n][j] == s[j];
      LastBelowIs(s[..n], a, i);
    }
  }

  lemma {:induction false} LastBelowNone<I>(s: seq<Range<I>>, a: Addr)
    ensures LastBelow(s, a).None? <==> forall i :: 0 <= i < |s| ==> a < s[i].lo
    decreases |s|
  {
    if s != [] {
      var n := |s| - 1;
      assert forall j :: 0 <= j < n ==> s[..n][j] == s[j];
      LastBelowNone(s[..n], a);
    }
  }

  /** A new point goes in front of those at the same address. */
  lemma PointPlace<I>(s: seq<Range<I>>, x: Range<I>)
    requires Ascending(s) && x.lo == x.hi
    ensures var k, u := InsertPos(s, x), InsertRange(s, x);
            && |u| == |s| + 1 && u[k] == x
            && (forall i :: 0 <= i < k ==> u[i] == s[i] && s[i].lo < x.lo)
            && (forall i :: k < i < |u| ==> u[i] == s[i - 1] && x.lo <= s[i - 1].lo)
  {
    var k := InsertPos(s, x);
    forall i | k <= i < |s| ensures x.lo <= s[i].lo {
      assert s[k].lo <= s[i].lo;
    }
  }

  /** Where the predecessor is after a point was put at position `k`. */
  lemma InsertPredecessor<I>(s: seq<Range<I>>, x: Range<I>, a: Addr, i: nat)
    requires Ascending(s) && x.lo == x.hi && IsPredecessor(s, a, i)
    ensures IsPredecessor(InsertRange(s, x), a,
                          if s[i].lo >= x.lo then i + 1 else if x.lo <= a then InsertPos(s, x) else i)
  {
    var k, u := InsertPos(s, x), InsertRange(s, x);
    PointPlace(s, x);
    if s[i].lo >= x.lo {
      assert k <= i && u[i + 1] == s[i];
      forall j | i + 1 < j < |u| ensures a < u[j].lo { assert u[j] == s[j - 1]; }
    } else {
      assert i < k;
      forall j | k < j < |u| ensures a < u[j].lo { assert u[j] == s[j - 1]; }
      forall j | i < j < k ensures a < u[j].lo { assert u[j] == s[j]; }
    }
  }

  lemma InsertLastBelow<I>(s: seq<Range<I>>, x: Range<I>, a: Addr)
    requires Ascending(s) && x.lo == x.hi
    ensures LastBelow(InsertRange(s, x), a) ==
            var best := LastBelow(s, a);
            if x.lo <= a && (best.None? || best.value.lo < x.lo) then Some(x) else best
  {
    var k, u := InsertPos(s, x), InsertRange(s, x);
    PointPlace(s, x);
    LastBelowNone(s, a);
    if exists i :: 0 <= i < |s| && s[i].lo <= a {
      var i := LastAtOrBelow(s, a);
      LastBelowIs(s, a, i);
      InsertPredecessor(s, x, a, i);
      LastBelowIs(u, a, if s[i].lo >= x.lo then i + 1 else if x.lo <= a then k else i);
    } else {
      OnlyPredecessor(s, x, a);
    }
  }

  lemma OnlyPredecessor<I>(s: seq<Range<I>>, x: Range<I>, a: Addr)
    requires Ascending(s) && x.lo == x.hi && forall i :: 0 <= i < |s| ==> a < s[i].lo
    ensures LastBelow(InsertRange(s, x), a) == if x.lo <= a then Some(x) else None
  {
    var k, u := InsertPos(s, x), InsertRange(s, x);
    PointPlace(s, x);
    if x.lo <= a {
      LastBelowIs(u, a, k);
    } else {
      LastBelowNone(u, a);
    }
  }

  ghost predicate Points<I>(xs: seq<Range<I>>) {
    forall i :: 0 <= i < |xs| ==> xs[i].lo == xs[i].hi
  }

  /** Entering one more point: it is never refused. */
  lemma PointAccepted<I>(xs: seq<Range<I>>, i: nat)
    requires Points(xs) && i < |xs|
    ensures AddAll([], xs[..i]).Some?
    ensures var u := AddAll([], xs[..i]).value;
            Accepts(u, xs[i]) && AddAll([], xs[..i + 1]) == Some(InsertRange(u, xs[i])) && Ascending(u)
  {
    PointsAccepted(xs[..i]);
    PointsAccepted(xs[..i + 1]);
    AddAllNext([], xs[..i], xs[i]);
    assert xs[..i + 1] == xs[..i] + [xs[i]];
    AddAllSorts(xs[..i]);
    SortedIsMonotone(AddAll([], xs[..i]).value);
  }

  lemma NextEntry<I>(xs: seq<Range<I>>, a: Addr, i: nat)
    requires i < |xs|
    ensures Nearest(xs[..i + 1], a) ==
            var best := Nearest(xs[..i], a);
            if xs[i].lo <= a && (best.None? || best.value.lo < xs[i].lo) then Some(xs[i]) else best
  {
    assert xs[..i + 1][..i] == xs[..i] && xs[..i + 1][i] == xs[i];
  }

  /** The last range that starts at or below an address is the nearest entry. */
  lemma {:induction false} PointsEntered<I>(xs: seq<Range<I>>, a: Addr, i: nat)
    requires Points(xs) && i <= |xs|
    ensures AddAll([], xs[..i]).Some? && LastBelow(AddAll([], xs[..i]).value, a) == Nearest(xs[..i], a)
  {
    if i > 0 {
      PointsEntered(xs, a, i - 1);
      PointAccepted(xs, i - 1);
      NextEntry(xs, a, i - 1);
      InsertLastBelow(AddAll([], xs[..i - 1]).value, xs[i - 1], a);
    }
  }

  // ---------- The answer after patching ----------

  function InfoOf<I>(x: Option<Range<I>>): Option<I> {
    if x.Some? then Some(x.value.info) else None
  }

  ghost predicate Answers<N, I>(t: Tree<N, I>, max: Addr, a: Addr) {
    Lookup(Patched(t, max), a) == InfoOf(LastBelow(Ranges(t), a))
  }

  /** The uppermost node at address zero, if there is one, is the last in order of those at zero. */
  predicate ZeroOnTop<N, I>(t: Tree<N, I>, max: Addr) {
    match t
    case Leaf => true
    case Fork(_, _, rg, l, r) => if rg.lo == 0 then LowestOr(r, max) != 0 else ZeroOnTop(l, rg.lo)
  }

  ghost predicate Below<I>(s: seq<Range<I>>, max: Addr) {
    Ascending(s) && forall i :: 0 <= i < |s| ==> s[i].lo <= max
  }

  lemma BelowParts<I>(b: seq<Range<I>>, rg: Range<I>, c: seq<Range<I>>, max: Addr)
    requires Below(b + [rg] + c, max)
    ensures Below(b, rg.lo) && Below(c, max) && rg.lo <= max
    ensures forall i :: 0 <= i < |c| ==> rg.lo <= c[i].lo
  {
    var s := b + [rg] + c;
    assert s[|b|] == rg;
    assert forall i :: 0 <= i < |b| ==> s[i] == b[i];
    assert forall i :: 0 <= i < |c| ==> s[|b| + 1 + i] == c[i];
  }

  /** The predecessor, when the sequence is seen as what stands before and after `rg`. */
  lemma PredecessorParts<I>(b: seq<Range<I>>, rg: Range<I>, c: seq<Range<I>>, a: Addr, i: nat)
    requires Ascending(b + [rg] + c)
    ensures a < rg.lo && IsPredecessor(b, a, i) ==> IsPredecessor(b + [rg] + c, a, i)
    ensures rg.lo <= a && IsPredecessor(c, a, i) ==> IsPredecessor(b + [rg] + c, a, |b| + 1 + i)
    ensures rg.lo <= a && (c == [] || a < c[0].lo) ==> IsPredecessor(b + [rg] + c, a, |b|)
  {
    var s := b + [rg] + c;
    BelowParts(b, rg, c, MAX_ADDR);
    assert forall j :: |b| < j < |s| ==> s[j] == c[j - |b| - 1];
  }

  lemma LastBelowBefore<I>(b: seq<Range<I>>, rg: Range<I>, c: seq<Range<I>>, a: Addr)
    requires Ascending(b + [rg] + c) && a < rg.lo
    ensures LastBelow(b + [rg] + c, a) == LastBelow(b, a)
  {
    var s := b + [rg] + c;
    BelowParts(b, rg, c, MAX_ADDR);
    LastBelowNone(b, a);
    LastBelowNone(s, a);
    if exists i :: 0 <= i < |b| && b[i].lo <= a {
      var i := LastAtOrBelow(b, a);
      LastBelowIs(b, a, i);
      PredecessorParts(b, rg, c, a, i);
      LastBelowIs(s, a, i);
    } else {
      forall i | 0 <= i < |s| ensures a < s[i].lo {
        assert s[i] == if i < |b| then b[i] else if i == |b| then rg else c[i - |b| - 1];
      }
    }
  }

  lemma LastBelowParts<I>(b: seq<Range<I>>, rg: Range<I>, c: seq<Range<I>>, a: Addr)
    requires Ascending(b + [rg] + c)
    ensures LastBelow(b + [rg] + c, a) ==
            if a < rg.lo then LastBelow(b, a) else if c == [] || a < c[0].lo then Some(rg) else LastBelow(c, a)
  {
    var s := b + [rg] + c;
    if a < rg.lo {
      LastBelowBefore(b, rg, c, a);
    } else if c == [] || a < c[0].lo {
      PredecessorParts(b, rg, c, a, 0);
      LastBelowIs(s, a, |b|);
    } else {
      var i := LastAtOrBelow(c, a);
      LastBelowIs(c, a, i);
      PredecessorParts(b, rg, c, a, i);
      LastBelowIs(s, a, |b| + 1 + i);
    }
  }

  lemma {:induction false} NoZeroOnTop<N, I>(t: Tree<N, I>, max: Addr)
    requires forall i :: 0 <= i < |Ranges(t)| ==> Ranges(t)[i].lo != 0
    ensures ZeroOnTop(t, max)
  {
    match t
    case Leaf =>
    case Fork(_, _, rg, l, r) =>
      assert Ranges(t)[|Ranges(l)|] == rg;
      forall i | 0 <= i < |Ranges(l)| ensures Ranges(l)[i].lo != 0 {
        assert Ranges(t)[i] == Ranges(l)[i];
      }
      NoZeroOnTop(l, rg.lo);
  }

  lemma RightOnTop<N, I>(t: Tree<N, I>, max: Addr)
    requires t.Fork? && Below(Ranges(t), max) && ZeroOnTop(t, max)
    ensures ZeroOnTop(t.right, max) && (max != 0 ==> LowestOr(t.right, max) != 0)
  {
    var c := Ranges(t.right);
    BelowParts(Ranges(t.left), t.range, c, max);
    LowestIsFirst(t.right, max);
    forall i | 0 <= i < |c| ensures c[i].lo != 0 {
      assert c[0].lo <= c[i].lo;
    }
    NoZeroOnTop(t.right, max);
  }

  lemma {:induction false} OnTopAnswers<N, I>(t: Tree<N, I>, max: Addr, a: Addr)
    requires Below(Ranges(t), max) && ZeroOnTop(t, max) && a < max
    ensures Answers(t, max, a)
  {
    match t
    case Leaf =>
    case Fork(_, _, rg, l, r) =>
      BelowParts(Ranges(l), rg, Ranges(r), max);
      LastBelowParts(Ranges(l), rg, Ranges(r), a);
      RightOnTop(t, max);
      LowestIsFirst(r, max);
      if a < rg.lo {
        OnTopAnswers(l, rg.lo, a);
      } else if a >= LowestOr(r, max) {
        OnTopAnswers(r, max, a);
      }
  }

  /** At the maximum itself nothing is found. */
  lemma {:induction false} OnTopAtMaximum<N, I>(t: Tree<N, I>, max: Addr)
    requires Below(Ranges(t), max) && ZeroOnTop(t, max) && max != 0
    ensures Lookup(Patched(t, max), max).None?
  {
    match t
    case Leaf =>
    case Fork(_, _, rg, l, r) =>
      BelowParts(Ranges(l), rg, Ranges(r), max);
      RightOnTop(t, max);
      LowestIsFirst(r, max);
      OnTopAtMaximum(r, max);
  }

  /** Otherwise the uppermost node at zero covers every address, but is not the last at zero. */
  lemma {:induction false} NotOnTopMisleads<N, I>(t: Tree<N, I>, max: Addr) returns (i: nat)
    requires Below(Ranges(t), max) && !ZeroOnTop(t, max) && max != 0
    ensures i + 1 < |Ranges(t)| && Ranges(t)[i].lo == 0 && Ranges(t)[i + 1].lo == 0
    ensures Lookup(Patched(t, max), 0) == Some(Ranges(t)[i].info)
  {
    var rg, l, r := t.range, t.left, t.right;
    BelowParts(Ranges(l), rg, Ranges(r), max);
    if rg.lo == 0 {
      LowestIsFirst(r, max);
      i := |Ranges(l)|;
      assert Ranges(t)[i] == rg && Ranges(t)[i + 1] == Ranges(r)[0];
    } else {
      i := NotOnTopMisleads(l, rg.lo);
      assert Ranges(t)[i] == Ranges(l)[i] && Ranges(t)[i + 1] == Ranges(l)[i + 1];
    }
  }

  ghost predicate InfosDiffer<I>(s: seq<Range<I>>) {
    forall i, j :: 0 <= i < j < |s| ==> s[i].info != s[j].info
  }

  lemma MisledAtZero<N, I>(t: Tree<N, I>, max: Addr)
    requires Below(Ranges(t), max) && InfosDiffer(Ranges(t)) && !ZeroOnTop(t, max) && max != 0
    ensures !Answers(t, max, 0)
  {
    var s := Ranges(t);
    var i := NotOnTopMisleads(t, max);
    assert s[i].lo <= 0;
    var j := LastAtOrBelow(s, 0);
    LastBelowIs(s, 0, j);
    assert i < j;
  }

  /** After patching, a search answers the predecessor query for every address below the maximum, if
      and only if the uppermost node at address zero is the last of those at zero. */
  lemma PatchedLookup<N, I>(t: Tree<N, I>, max: Addr)
    requires Below(Ranges(t), max) && InfosDiffer(Ranges(t)) && max != 0
    ensures ZeroOnTop(t, max) <==> forall a: Addr :: a < max ==> Answers(t, max, a)
  {
    if ZeroOnTop(t, max) {
      forall a: Addr | a < max ensures Answers(t, max, a) {
        OnTopAnswers(t, max, a);
      }
    } else {
      MisledAtZero(t, max);
    }
  }

  function RangeInfo<I>(r: Range<I>): I {
    r.info
  }

  lemma InfosPermuted<I>(xs: seq<Range<I>>, s: seq<Range<I>>)
    requires multiset(xs) == multiset(s) && InfosDiffer(xs)
    ensures InfosDiffer(s)
  {
    MapPermutation(xs, s, RangeInfo);
    assert Sequences.Distinct(Map(xs, RangeInfo));
    DistinctPermutation(Map(xs, RangeInfo), Map(s, RangeInfo));
    assert forall i :: 0 <= i < |s| ==> Map(s, RangeInfo)[i] == s[i].info;
  }

  // ---------- From the entries to the answers ----------

  /** What searches are to answer for the entries `xs`. */
  ghost predicate Correct<N, I>(xs: seq<Range<I>>, t: Tree<N, I>, a: Addr) {
    Lookup(t, a) == if a < MAX_ADDR then InfoOf(Nearest(xs, a)) else None
  }

  lemma LoadedRanges<N, I>(xs: seq<Range<I>>, t: Tree<N, I>)
    requires Points(xs) && AddAll([], xs) == Some(Ranges(t))
    ensures Below(Ranges(t), MAX_ADDR) && multiset(xs) == multiset(Ranges(t))
    ensures forall a: Addr :: LastBelow(Ranges(t), a) == Nearest(xs, a)
  {
    assert xs[..|xs|] == xs;
    AddAllSorts(xs);
    SortedIsMonotone(Ranges(t));
    forall a: Addr ensures LastBelow(Ranges(t), a) == Nearest(xs, a) {
      PointsEntered(xs, a, |xs|);
    }
  }

  lemma CorrectOnTop<N, I>(xs: seq<Range<I>>, t: Tree<N, I>, a: Addr)
    requires Points(xs) && AddAll([], xs) == Some(Ranges(t)) && ZeroOnTop(t, MAX_ADDR)
    ensures Correct(xs, Patched(t, MAX_ADDR), a)
  {
    LoadedRanges(xs, t);
    if a < MAX_ADDR { OnTopAnswers(t, MAX_ADDR, a); } else { OnTopAtMaximum(t, MAX_ADDR); }
  }

  /** After entering points in any order and patching, every search yields the nearest entry at or below
      the query, or nothing at the maximum, if the tree before patching has the first entered of those at
      address zero above the others; and, when no two entries have the same information, only if. */
  lemma LineTable<N, I>(xs: seq<Range<I>>, t: Tree<N, I>)
    requires Points(xs) && AddAll([], xs) == Some(Ranges(t))
    ensures ZeroOnTop(t, MAX_ADDR) ==> forall a: Addr :: Correct(xs, Patched(t, MAX_ADDR), a)
    ensures InfosDiffer(xs) && !ZeroOnTop(t, MAX_ADDR) ==> !Correct(xs, Patched(t, MAX_ADDR), 0)
  {
    if ZeroOnTop(t, MAX_ADDR) {
      forall a: Addr ensures Correct(xs, Patched(t, MAX_ADDR), a) {
        CorrectOnTop(xs, t, a);
      }
    } else if InfosDiffer(xs) {
      LoadedRanges(xs, t);
      InfosPermuted(xs, Ranges(t));
      MisledAtZero(t, MAX_ADDR);
    }
  }

  // ---------- Few entries at address zero ----------

  function ZerosIn<I>(xs: seq<Range<I>>): nat {
    if xs == [] then 0 else ZerosIn(xs[..|xs| - 1]) + if xs[|xs| - 1].lo == 0 then 1 else 0
  }

  /** The first `z` start at zero, and the others do not. */
  ghost predicate ZerosFirst<I>(s: seq<Range<I>>, z: nat) {
    z <= |s| && (forall i :: 0 <= i < z ==> s[i].lo == 0) && forall i :: z <= i < |s| ==> s[i].lo != 0
  }

  lemma InsertZero<I>(s: seq<Range<I>>, x: Range<I>, z: nat)
    requires Ascending(s) && x.lo == x.hi && ZerosFirst(s, z)
    ensures if x.lo == 0 then InsertPos(s, x) == 0 && ZerosFirst(InsertRange(s, x), z + 1)
            else InsertPos(s, x) >= z && ZerosFirst(InsertRange(s, x), z)
  {
    PointPlace(s, x);
    var k, u := InsertPos(s, x), InsertRange(s, x);
    assert forall i :: 0 <= i < k ==> u[i] == s[i];
    assert forall i :: k < i < |u| ==> u[i] == s[i - 1];
  }

  lemma {:induction false} FewZerosOnTop<N, I>(t: Tree<N, I>, max: Addr, z: nat)
    requires Below(Ranges(t), max) && max != 0 && ZerosFirst(Ranges(t), z) && z <= 2
    requires z == 2 ==> LeftmostBare(t)
    ensures ZeroOnTop(t, max)
  {
    match t
    case Leaf =>
    case Fork(_, _, rg, l, r) =>
      var b, c, s := Ranges(l), Ranges(r), Ranges(t);
      BelowParts(b, rg, c, max);
      LowestIsFirst(r, max);
      assert s[|b|] == rg && (c != [] ==> s[|b| + 1] == c[0]);
      if rg.lo != 0 {
        assert forall i :: 0 <= i < |b| ==> s[i] == b[i];
        FewZerosOnTop(l, rg.lo, z);
      }
  }

  // ---------- Many entries at address zero ----------

  lemma {:induction false} BlackHeightTop<N, I>(t: Tree<N, I>)
    requires Balanced(t) && NoRedRed(t)
    ensures |Ranges(t)| < Pow2(2 * BlackHeight(t) + 1)
    ensures !IsRed(t) ==> |Ranges(t)| < Pow2(2 * BlackHeight(t))
  {
    match t
    case Leaf =>
    case Fork(_, c, _, l, r) =>
      BlackHeightTop(l);
      BlackHeightTop(r);
      var h := 2 * BlackHeight(l);
      assert Pow2(h + 1) == 2 * Pow2(h) && Pow2(h + 2) == 2 * Pow2(h + 1);
  }

  /** Twice the square of the greatest power of two that is not above `n`. */
  function Room(n: nat): nat {
    if n <= 1 then 2 else 4 * Room(n / 2)
  }

  lemma {:induction false} RoomGrows(m: nat, n: nat)
    requires m <= n
    ensures 2 <= Room(m) <= Room(n)
    decreases n
  {
    if m > 1 {
      RoomGrows(m / 2, n / 2);
    } else if n > 1 {
      RoomGrows(m, n / 2);
    }
  }

  lemma {:induction false} RoomForPower(h: nat, n: nat)
    requires Pow2(h) <= n
    ensures Pow2(2 * h + 1) <= Room(n)
  {
    if h > 0 {
      Pow2Monotone(0, h - 1);
      RoomForPower(h - 1, n / 2);
      assert Pow2(2 * h + 1) == 2 * Pow2(2 * h) == 4 * Pow2(2 * h - 1);
    } else {
      RoomGrows(0, n);
    }
  }

  lemma RightAtLeast<N, I>(t: Tree<N, I>)
    requires t.Fork? && Balanced(t) && NoRedRed(t)
    ensures Pow2(BlackHeight(t.left)) <= |Ranges(t.right)| + 1
  {
    BlackHeightBounds(t.right);
  }

  /** The left and the right part of a node are of like size. */
  lemma LikeHeights<N, I>(t: Tree<N, I>) returns (h: nat)
    requires t.Fork? && Balanced(t) && NoRedRed(t)
    ensures |Ranges(t.left)| < Pow2(2 * h + 1) && Pow2(h) <= |Ranges(t.right)| + 1
  {
    h := BlackHeight(t.left);
    BlackHeightTop(t.left);
    RightAtLeast(t);
  }

  lemma LikeSizes<N, I>(t: Tree<N, I>)
    requires t.Fork? && Balanced(t) && NoRedRed(t)
    ensures |Ranges(t.left)| < Room(|Ranges(t.right)| + 1)
  {
    var h := LikeHeights(t);
    RoomForPower(h, |Ranges(t.right)| + 1);
  }

  /** Where the entries at zero are, seen from one entry: up to it, if it is the last of them, or before. */
  lemma ZerosParts<I>(l: seq<Range<I>>, rg: Range<I>, r: seq<Range<I>>, z: nat)
    requires ZerosFirst(l + [rg] + r, z)
    ensures rg.lo == 0 && (r == [] || r[0].lo != 0) ==> z == |l| + 1
    ensures rg.lo != 0 ==> ZerosFirst(l, z)
  {
    var s := l + [rg] + r;
    assert s[|l|] == rg && (r != [] ==> s[|l| + 1] == r[0]);
    assert forall i :: 0 <= i < |l| ==> s[i] == l[i];
  }

  lemma ZerosToTheLeft<N, I>(t: Tree<N, I>, z: nat)
    requires t.Fork? && Balanced(t) && NoRedRed(t) && z == |Ranges(t.left)| + 1
    ensures z <= |Ranges(t)| && z <= Room(|Ranges(t)| - z + 1)
  {
    LikeSizes(t);
    assert |Ranges(t)| - z == |Ranges(t.right)|;
  }

  lemma OnTopLeft<N, I>(t: Tree<N, I>, max: Addr, z: nat)
    requires t.Fork? && Below(Ranges(t), max) && max != 0 && ZerosFirst(Ranges(t), z) && ZeroOnTop(t, max)
    ensures t.range.lo == 0 ==> z == |Ranges(t.left)| + 1
    ensures t.range.lo != 0 ==>
            Below(Ranges(t.left), t.range.lo) && ZerosFirst(Ranges(t.left), z) && ZeroOnTop(t.left, t.range.lo)
  {
    BelowParts(Ranges(t.left), t.range, Ranges(t.right), max);
    LowestIsFirst(t.right, max);
    ZerosParts(Ranges(t.left), t.range, Ranges(t.right), z);
  }

  /** If zero is on top, the node there has all others at zero to its left and as good as half of its
      subtree to its right; so there must be enough other entries. */
  lemma {:induction false} ZerosNeedOthers<N, I>(t: Tree<N, I>, max: Addr, z: nat)
    requires Balanced(t) && NoRedRed(t) && Below(Ranges(t), max) && max != 0
    requires ZerosFirst(Ranges(t), z) && z > 0 && ZeroOnTop(t, max)
    ensures z <= Room(|Ranges(t)| - z + 1)
  {
    OnTopLeft(t, max, z);
    if t.range.lo == 0 {
      ZerosToTheLeft(t, z);
    } else {
      ZerosNeedOthers(t.left, t.range.lo, z);
      RoomGrows(|Ranges(t.left)| - z + 1, |Ranges(t)| - z + 1);
    }
  }

  // ---------- Loading ----------

  /** Whether zero is on top can be found out from the entries alone. */
  predicate OnTop<I>(xs: seq<Range<I>>) {
    Built(xs).Some? && ZeroOnTop(Built(xs).value, MAX_ADDR)
  }

  lemma {:induction false} ShapeOnTop<N, I>(t: Tree<N, I>, max: Addr)
    ensures ZeroOnTop(Shape(t), max) == ZeroOnTop(t, max) && LowestOr(Shape(t), max) == LowestOr(t, max)
  {
    match t
    case Leaf =>
    case Fork(_, _, rg, l, r) =>
      ShapeOnTop(l, rg.lo);
      ShapeOnTop(r, max);
  }

  /** At every moment of loading: the entries are in the tree, and two at zero are at its left end. */
  ghost predicate Loading<N, I>(xs: seq<Range<I>>, t: Tree<N, I>) {
    && AddAll([], xs) == Some(Ranges(t)) && Built(xs) == Some(Shape(t))
    && ZerosFirst(Ranges(t), ZerosIn(xs))
    && (ZerosIn(xs) == 2 ==> LeftmostBare(t))
  }

  lemma NextLoads<N, I>(xs: seq<Range<I>>, i: nat, t: Tree<N, I>)
    requires Points(xs) && i < |xs| && Loading(xs[..i], t)
    ensures Accepts(Ranges(t), xs[i]) && AddAll([], xs[..i + 1]) == Some(InsertRange(Ranges(t), xs[i]))
    ensures Built(xs[..i + 1]) == Added(Shape(t), (), xs[i])
    ensures ZerosFirst(InsertRange(Ranges(t), xs[i]), ZerosIn(xs[..i + 1]))
    ensures ZerosIn(xs[..i + 1]) == 2 ==> StaysFirst(t, xs[i])
  {
    PointAccepted(xs, i);
    assert xs[..i + 1][..i] == xs[..i] && xs[..i + 1][i] == xs[i];
    InsertZero(Ranges(t), xs[i], ZerosIn(xs[..i]));
  }

  /** More entries at zero than the others can bear. */
  predicate TooManyZeros<I>(xs: seq<Range<I>>) {
    ZerosIn(xs) <= |xs| && ZerosIn(xs) > Room(|xs| - ZerosIn(xs) + 1)
  }

  lemma LoadedShape<N, I>(xs: seq<Range<I>>, t: Tree<N, I>)
    requires Points(xs) && Loading(xs, t)
    ensures OnTop(xs) == ZeroOnTop(t, MAX_ADDR) && Below(Ranges(t), MAX_ADDR) && |Ranges(t)| == |xs|
  {
    AddAllSorts(xs);
    SameLength(xs, Ranges(t));
    SortedIsMonotone(Ranges(t));
    ShapeOnTop(t, MAX_ADDR);
  }

  /** With at most two entries at zero, zero is on top; with too many for the others, it is not. */
  lemma LoadedOnTop<N, I>(xs: seq<Range<I>>, t: Tree<N, I>)
    requires Points(xs) && Loading(xs, t) && RedBlack(t)
    ensures OnTop(xs) == ZeroOnTop(t, MAX_ADDR)
    ensures (ZerosIn(xs) <= 2 ==> OnTop(xs)) && (TooManyZeros(xs) ==> !OnTop(xs))
  {
    LoadedShape(xs, t);
    if ZerosIn(xs) <= 2 {
      FewZerosOnTop(t, MAX_ADDR, ZerosIn(xs));
      RoomGrows(0, |xs| - ZerosIn(xs) + 1);
    } else if OnTop(xs) {
      ZerosNeedOthers(t, MAX_ADDR, ZerosIn(xs));
    }
  }

  lemma LoadedLines<N, I>(xs: seq<Range<I>>, t: Tree<N, I>)
    requires Points(xs) && Loading(xs, t) && RedBlack(t)
    ensures OnTop(xs) ==> forall a: Addr :: Correct(xs, Patched(t, MAX_ADDR), a)
    ensures InfosDiffer(xs) && !OnTop(xs) ==> !Correct(xs, Patched(t, MAX_ADDR), 0)
  {
    LineTable(xs, t);
    LoadedOnTop(xs, t);
  }

  method LoadLine<I>(lines: AddrRangeMap<I>, xs: seq<Range<I>>, i: nat)
    requires Points(xs) && i < |xs|
    requires lines.Valid() && Sorted(Ranges(lines.tree)) && Loading(xs[..i], lines.tree)
    modifies lines, lines.nodes
    ensures lines.Valid() && Sorted(Ranges(lines.tree)) && Loading(xs[..i + 1], lines.tree)
    ensures fresh(lines.nodes - old(lines.nodes))
  {
    NextLoads(xs, i, lines.tree);
    var ok := lines.Add(xs[i].lo, xs[i].hi, xs[i].info);
  }

  /** The line table of an executable: every address is entered as a point, and the ends are patched
      afterwards. No entry is refused. Searches then give the promised answers, for every query, if the
      entries put zero on top, and with different information only if. */
  method LoadLines<I>(xs: seq<Range<I>>) returns (lines: AddrRangeMap<I>, ghost t: NodeTree<I>)
    requires Points(xs)
    ensures fresh(lines) && fresh(lines.nodes) && lines.Valid()
    ensures RedBlack(t) && AddAll([], xs) == Some(Ranges(t)) && Built(xs) == Some(Shape(t))
    ensures lines.tree == Patched(t, MAX_ADDR)
    ensures OnTop(xs) ==> forall a: Addr :: Correct(xs, lines.tree, a)
    ensures InfosDiffer(xs) && !OnTop(xs) ==> !Correct(xs, lines.tree, 0)
  {
    lines := new AddrRangeMap<I>.Init();
    var i := 0;
    while i < |xs|
      invariant 0 <= i <= |xs| && fresh(lines.nodes)
      invariant lines.Valid() && Sorted(Ranges(lines.tree)) && Loading(xs[..i], lines.tree)
    {
      LoadLine(lines, xs, i);
      i := i + 1;
    }
    assert xs[..i] == xs;
    t := lines.tree;
    LoadedLines(xs, t);
    lines.PatchRanges();
  }

  /** Entries at zero come to stand in reverse. */
  lemma {:induction false} ZerosReversed<I>(xs: seq<Range<I>>, n: nat)
    requires Points(xs) && (forall i :: 0 <= i < |xs| ==> xs[i].lo == 0) && n <= |xs|
    ensures AddAll([], xs[..n]).Some?
    ensures var u := AddAll([], xs[..n]).value;
            |u| == n && forall k :: 0 <= k < n ==> u[k] == xs[n - 1 - k]
  {
    if n > 0 {
      ZerosReversed(xs, n - 1);
      PointAccepted(xs, n - 1);
      PointPlace(AddAll([], xs[..n - 1]).value, xs[n - 1]);
    }
  }

  /** With three or more entries, all at zero, every tree that additions can build answers every query with
      one that was not entered first: that at the root, and of three the second. */
  lemma OnlyZerosMislead<N, I>(xs: seq<Range<I>>, t: Tree<N, I>, a: Addr) returns (i: nat)
    requires |xs| >= 3 && Points(xs) && forall i :: 0 <= i < |xs| ==> xs[i].lo == 0
    requires RedBlack(t) && AddAll([], xs) == Some(Ranges(t))
    ensures !ZeroOnTop(t, MAX_ADDR) && Nearest(xs, a) == Some(xs[0])
    ensures 1 <= i < |xs| && Lookup(Patched(t, MAX_ADDR), a) == Some(xs[i].info) && (|xs| == 3 ==> i == 1)
  {
    assert xs[..|xs|] == xs;
    ZerosReversed(xs, |xs|);
    NearestMeans(xs, a);
    RightOfMany(t);
    var k := |Ranges(t.left)|;
    assert Ranges(t)[k] == t.range && Ranges(t)[k + 1] == Ranges(t.right)[0];
    LowestIsFirst(t.right, MAX_ADDR);
    i := |xs| - 1 - k;
    if |xs| == 3 { MiddleIsRoot(t); }
  }

  lemma RightOfMany<N, I>(t: Tree<N, I>)
    requires RedBlack(t) && |Ranges(t)| >= 3
    ensures t.Fork? && Ranges(t.right) != []
  {
    if t.right.Leaf? {
      BlackHeightBounds(t.left);
      SizeByHeight(t.left);
    }
  }

  lemma MiddleIsRoot<N, I>(t: Tree<N, I>)
    requires RedBlack(t) && |Ranges(t)| == 3
    ensures t.Fork? && |Ranges(t.left)| == |Ranges(t.right)| == 1
  {
    BlackHeightBounds(t.left);
    BlackHeightBounds(t.right);
    SizeByHeight(t.left);
    SizeByHeight(t.right);
  }

  lemma SizeByHeight<N, I>(t: Tree<N, I>)
    requires Height(t) <= 1
    ensures |Ranges(t)| <= 1
  {
  }
}

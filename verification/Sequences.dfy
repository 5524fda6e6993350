/** Sequences up to order: permutations, and filtering. */
module Sequences {

  lemma SameLength<T>(xs: seq<T>, ys: seq<T>)
    requires multiset(xs) == multiset(ys)
    ensures |xs| == |ys|
  {
    assert |multiset(xs)| == |xs| && |multiset(ys)| == |ys|;
  }

  function Remove<T>(s: seq<T>, i: nat): seq<T>
    requires i < |s|
  {
    s[..i] + s[i + 1..]
  }

  lemma RemoveInit<T>(s: seq<T>, i: nat)
    requires i < |s|
    ensures Remove(s, i) == if i == |s| - 1 then s[..|s| - 1] else Remove(s[..|s| - 1], i) + [s[|s| - 1]]
  {
  }

  lemma Without<T>(s: seq<T>, i: nat)
    requires i < |s|
    ensures multiset(Remove(s, i)) == multiset(s) - multiset{s[i]}
  {
    assert s == s[..i] + [s[i]] + s[i + 1..];
  }

  lemma Find<T>(s: seq<T>, x: T) returns (i: nat)
    requires x in multiset(s)
    ensures i < |s| && s[i] == x
  {
    i :| 0 <= i < |s| && s[i] == x;
  }

  /** The place in a permutation of the last element, without which both are permutations still. */
  lemma Partner<T>(xs: seq<T>, ys: seq<T>) returns (i: nat)
    requires multiset(xs) == multiset(ys) && xs != []
    ensures i < |ys| && ys[i] == xs[|xs| - 1]
    ensures multiset(xs[..|xs| - 1]) == multiset(Remove(ys, i))
  {
    var n := |xs| - 1;
    assert xs[n] in multiset(xs);
    i := Find(ys, xs[n]);
    Without(ys, i);
    Without(xs, n);
    assert xs[..n] + xs[n + 1..] == xs[..n];
  }

  function Concat<T>(s: seq<seq<T>>): seq<T> {
    if s == [] then [] else Concat(s[..|s| - 1]) + s[|s| - 1]
  }

  function Filter<T>(xs: seq<T>, f: T -> bool): seq<T>
    decreases |xs|
  {
    if xs == [] then []
    else Filter(xs[..|xs| - 1], f) + if f(xs[|xs| - 1]) then [xs[|xs| - 1]] else []
  }

  lemma FilterNext<T>(xs: seq<T>, x: T, f: T -> bool)
    ensures Filter(xs + [x], f) == if f(x) then Filter(xs, f) + [x] else Filter(xs, f)
  {
    assert (xs + [x])[..|xs|] == xs;
  }

  lemma {:induction false} FilterMembers<T>(xs: seq<T>, f: T -> bool, x: T)
    ensures x in Filter(xs, f) <==> x in xs && f(x)
    decreases |xs|
  {
    if xs != [] {
      FilterMembers(xs[..|xs| - 1], f, x);
      assert xs == xs[..|xs| - 1] + [xs[|xs| - 1]];
    }
  }

  lemma FilterNone<T>(xs: seq<T>, f: T -> bool)
    ensures Filter(xs, f) == [] <==> forall i :: 0 <= i < |xs| ==> !f(xs[i])
  {
    var s := Filter(xs, f);
    if s != [] {
      FilterMembers(xs, f, s[0]);
    } else {
      forall i | 0 <= i < |xs| ensures !f(xs[i]) {
        FilterMembers(xs, f, xs[i]);
      }
    }
  }

  lemma {:induction false} FilterCount<T>(xs: seq<T>, f: T -> bool, x: T)
    ensures multiset(Filter(xs, f))[x] == if f(x) then multiset(xs)[x] else 0
    decreases |xs|
  {
    if xs != [] {
      var n := |xs| - 1;
      FilterCount(xs[..n], f, x);
      assert xs == xs[..n] + [xs[n]];
    }
  }

  /** The order of the elements only reorders what a filter leaves. */
  lemma {:induction false} FilterPermutation<T(!new)>(xs: seq<T>, ys: seq<T>, f: T -> bool)
    requires multiset(xs) == multiset(ys)
    ensures multiset(Filter(xs, f)) == multiset(Filter(ys, f))
  {
    var a, b := multiset(Filter(xs, f)), multiset(Filter(ys, f));
    forall x ensures a[x] == b[x] {
      FilterCount(xs, f, x);
      FilterCount(ys, f, x);
    }
    assert a == b;
  }

  function Map<X, Y>(xs: seq<X>, f: X -> Y): seq<Y> {
    seq(|xs|, i requires 0 <= i < |xs| => f(xs[i]))
  }

  lemma MapNext<X, Y>(xs: seq<X>, x: X, f: X -> Y)
    ensures Map(xs + [x], f) == Map(xs, f) + [f(x)]
  {
  }

  lemma {:induction false} MapPermutation<X, Y>(xs: seq<X>, ys: seq<X>, f: X -> Y)
    requires multiset(xs) == multiset(ys)
    ensures multiset(Map(xs, f)) == multiset(Map(ys, f))
    decreases |xs|
  {
    SameLength(xs, ys);
    if xs != [] {
      var n := |xs| - 1;
      var i := Partner(xs, ys);
      MapPermutation(xs[..n], Remove(ys, i), f);
      MapNext(xs[..n], xs[n], f);
      assert xs == xs[..n] + [xs[n]];
      assert Remove(Map(ys, f), i) == Map(Remove(ys, i), f);
      Without(Map(ys, f), i);
    }
  }

  ghost predicate Distinct<T>(xs: seq<T>) {
    forall i, j :: 0 <= i < j < |xs| ==> xs[i] != xs[j]
  }

  lemma {:induction false} DistinctCount<T>(xs: seq<T>, x: T)
    requires Distinct(xs)
    ensures multiset(xs)[x] <= 1
    decreases |xs|
  {
    if xs != [] {
      var n := |xs| - 1;
      DistinctCount(xs[..n], x);
      assert xs == xs[..n] + [xs[n]];
      assert xs[n] !in multiset(xs[..n]);
    }
  }

  /** The order does not matter to whether elements differ. */
  lemma DistinctPermutation<T>(xs: seq<T>, ys: seq<T>)
    requires Distinct(xs) && multiset(xs) == multiset(ys)
    ensures Distinct(ys)
  {
    forall i, j | 0 <= i < j < |ys| ensures ys[i] != ys[j] {
      DistinctCount(xs, ys[i]);
      assert ys == ys[..i] + [ys[i]] + (ys[i + 1..j] + [ys[j]] + ys[j + 1..]);
      assert ys[j] in ys[i + 1..j] + [ys[j]] + ys[j + 1..];
    }
  }

  lemma {:induction false} FilterDistinct<T>(xs: seq<T>, f: T -> bool)
    requires Distinct(xs)
    ensures Distinct(Filter(xs, f))
    decreases |xs|
  {
    if xs != [] {
      var n := |xs| - 1;
      FilterDistinct(xs[..n], f);
      FilterMembers(xs[..n], f, xs[n]);
    }
  }

  lemma {:induction false} DistinctFits<T>(xs: seq<T>, s: set<T>)
    requires Distinct(xs) && forall i :: 0 <= i < |xs| ==> xs[i] in s
    ensures |xs| <= |s|
    decreases |xs|
  {
    if xs != [] {
      var n := |xs| - 1;
      DistinctFits(xs[..n], s - {xs[n]});
    }
  }

  function Below(n: nat): (s: set<int>)
    ensures |s| == n && forall i :: i in s <==> 0 <= i < n
  {
    if n == 0 then {} else Below(n - 1) + {n - 1}
  }

  /** The order of the parts only reorders the whole. */
  lemma {:induction false} ConcatPermutation<T>(s: seq<seq<T>>, t: seq<seq<T>>)
    requires multiset(s) == multiset(t)
    ensures multiset(Concat(s)) == multiset(Concat(t))
    decreases |s|
  {
    SameLength(s, t);
    if s != [] {
      var i := Partner(s, t);
      ConcatPermutation(s[..|s| - 1], Remove(t, i));
      ConcatWithout(t, i);
    }
  }

  lemma {:induction false} ConcatWithout<T>(s: seq<seq<T>>, i: nat)
    requires i < |s|
    ensures multiset(Concat(s)) == multiset(Concat(Remove(s, i))) + multiset(s[i])
    decreases |s|
  {
    var n := |s| - 1;
    RemoveInit(s, i);
    if i < n {
      ConcatWithout(s[..n], i);
      var rest := Remove(s[..n], i);
      assert (rest + [s[n]])[..|rest|] == rest;
    }
  }

  lemma {:induction false} ConcatMembers<T>(s: seq<seq<T>>, x: T)
    ensures x in Concat(s) <==> exists i :: 0 <= i < |s| && x in s[i]
  {
    if s != [] {
      ConcatMembers(s[..|s| - 1], x);
      assert forall i :: 0 <= i < |s| - 1 ==> s[..|s| - 1][i] == s[i];
    }
  }

  lemma {:induction false} ConcatSplit<T>(s: seq<seq<T>>, i: nat)
    requires i < |s|
    ensures Concat(s) == Concat(s[..i]) + s[i] + Concat(s[i + 1..])
    ensures Concat(s[..i + 1]) == Concat(s[..i]) + s[i]
    decreases |s|
  {
    var n := |s| - 1;
    assert s[..i + 1][..i] == s[..i];
    if i == n {
      assert s[i + 1..] == [];
    } else {
      var rest := s[i + 1..];
      ConcatSplit(s[..n], i);
      assert s[..n][..i] == s[..i] && s[..n][i + 1..] == rest[..|rest| - 1] && rest[|rest| - 1] == s[n];
    }
  }

  lemma {:induction false} ConcatEmpty<T>(s: seq<seq<T>>)
    requires forall i :: 0 <= i < |s| ==> s[i] == []
    ensures Concat(s) == []
  {
    if s != [] {
      ConcatEmpty(s[..|s| - 1]);
    }
  }

  lemma {:induction false} ConcatDistinct<T(!new)>(s: seq<seq<T>>)
    requires forall i :: 0 <= i < |s| ==> Distinct(s[i])
    requires forall i, j, x :: 0 <= i < j < |s| && x in s[i] ==> x !in s[j]
    ensures Distinct(Concat(s))
  {
    if s != [] {
      var n := |s| - 1;
      ConcatDistinct(s[..n]);
      forall x | x in s[n] ensures x !in Concat(s[..n]) {
        ConcatMembers(s[..n], x);
        assert forall i :: 0 <= i < n ==> s[..n][i] == s[i];
      }
      DistinctAppend(Concat(s[..n]), s[n]);
    }
  }

  lemma DistinctAppend<T>(a: seq<T>, b: seq<T>)
    requires Distinct(a) && Distinct(b) && forall x :: x in b ==> x !in a
    ensures Distinct(a + b)
  {
    forall i, j | 0 <= i < j < |a + b| ensures (a + b)[i] != (a + b)[j] {
      if i < |a| <= j {
        assert (a + b)[j] in b && (a + b)[i] in a;
      }
    }
  }

  lemma Member<T>(s: set<T>) returns (x: T)
    requires s != {}
    ensures x in s
  {
    x :| x in s;
  }

  /** Some integer is greater than all in a set. */
  lemma {:induction false} Greater(taken: set<int>) returns (x: int)
    ensures forall y <- taken :: y < x
    decreases |taken|
  {
    if taken == {} {
      x := 0;
      assert forall y :: y !in taken;
    } else {
      var y := Member(taken);
      var z := Greater(taken - {y});
      x := if y < z then z else y + 1;
      assert forall u :: u in taken ==> u in taken - {y} || u == y;
    }
  }
}

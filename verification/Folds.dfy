/** Accumulating with an operation for which neither order nor grouping matters. */
module Folds {
  import opened Sequences

  /** Accumulating one value after another can be done in any order. */
  ghost predicate AnyOrder<T(!new)>(op: (T, T) -> T) {
    forall a, b, c :: op(op(a, b), c) == op(op(a, c), b)
  }

  ghost predicate Monoid<T(!new)>(op: (T, T) -> T, zero: T) {
    && AnyOrder(op)
    && (forall a, b, c :: op(op(a, b), c) == op(a, op(b, c)))
    && (forall a :: op(a, zero) == a && op(zero, a) == a)
  }

  function Fold<X, T>(xs: seq<X>, f: X -> T, op: (T, T) -> T, zero: T): T
    decreases |xs|
  {
    if xs == [] then zero else op(Fold(xs[..|xs| - 1], f, op, zero), f(xs[|xs| - 1]))
  }

  lemma FoldNext<X, T>(xs: seq<X>, x: X, f: X -> T, op: (T, T) -> T, zero: T)
    ensures Fold(xs + [x], f, op, zero) == op(Fold(xs, f, op, zero), f(x))
  {
    assert (xs + [x])[..|xs|] == xs;
  }

  lemma {:induction false} FoldLast<X, T(!new)>(xs: seq<X>, i: nat, f: X -> T, op: (T, T) -> T, zero: T)
    requires i < |xs| && AnyOrder(op)
    ensures Fold(xs, f, op, zero) == op(Fold(Remove(xs, i), f, op, zero), f(xs[i]))
    decreases |xs|
  {
    var n := |xs| - 1;
    RemoveInit(xs, i);
    if i < n {
      FoldLast(xs[..n], i, f, op, zero);
      FoldNext(Remove(xs[..n], i), xs[n], f, op, zero);
    }
  }

  lemma {:induction false} FoldPermutation<X, T(!new)>(xs: seq<X>, ys: seq<X>, f: X -> T, op: (T, T) -> T, zero: T)
    requires multiset(xs) == multiset(ys) && AnyOrder(op)
    ensures Fold(xs, f, op, zero) == Fold(ys, f, op, zero)
    decreases |xs|
  {
    SameLength(xs, ys);
    if xs != [] {
      var i := Partner(xs, ys);
      FoldLast(ys, i, f, op, zero);
      FoldPermutation(xs[..|xs| - 1], Remove(ys, i), f, op, zero);
    }
  }

  // ---------- Tables that accumulate ----------

  function Held<K, T>(m: map<K, T>, k: K, zero: T): T {
    if k in m then m[k] else zero
  }

  /** Accumulate under `k`, starting from `zero`. */
  function Into<K, T>(m: map<K, T>, k: K, v: T, op: (T, T) -> T, zero: T): map<K, T> {
    m[k := op(Held(m, k, zero), v)]
  }

  /** Everything a table has accumulated. */
  ghost function Total<K(!new), T>(m: map<K, T>, op: (T, T) -> T, zero: T): T {
    if m == map[] then zero
    else
      var k :| k in m;
      op(Total(m - {k}, op, zero), m[k])
  }

  lemma {:induction false} TotalWithout<K(!new), T(!new)>(m: map<K, T>, k: K, op: (T, T) -> T, zero: T)
    requires k in m && AnyOrder(op)
    ensures Total(m, op, zero) == op(Total(m - {k}, op, zero), m[k])
    decreases |m|
  {
    var l :| l in m && Total(m, op, zero) == op(Total(m - {l}, op, zero), m[l]);
    if k != l {
      var noL, noK, rest := m - {l}, m - {k}, m - {k, l};
      assert noL - {k} == rest && noK - {l} == rest;
      TotalWithout(noL, k, op, zero);
      TotalWithout(noK, l, op, zero);
      OneSwap(op, Total(rest, op, zero), m[k], m[l]);
    }
  }

  lemma OneSwap<T(!new)>(op: (T, T) -> T, a: T, b: T, c: T)
    requires AnyOrder(op)
    ensures op(op(a, b), c) == op(op(a, c), b)
  {
  }

  lemma Grouped<T(!new)>(op: (T, T) -> T, zero: T, a: T, b: T, c: T)
    requires Monoid(op, zero)
    ensures op(op(a, b), c) == op(a, op(b, c))
  {
  }

  lemma TotalHeld<K(!new), T(!new)>(m: map<K, T>, k: K, op: (T, T) -> T, zero: T)
    requires Monoid(op, zero)
    ensures Total(m, op, zero) == op(Total(m - {k}, op, zero), Held(m, k, zero))
  {
    if k in m {
      TotalWithout(m, k, op, zero);
    } else {
      assert m - {k} == m;
    }
  }

  /** What is accumulated under a key is accumulated in the total. */
  lemma {:induction false} TotalInto<K(!new), T(!new)>(m: map<K, T>, k: K, v: T, op: (T, T) -> T, zero: T)
    requires Monoid(op, zero)
    ensures Total(Into(m, k, v, op, zero), op, zero) == op(Total(m, op, zero), v)
  {
    var m' := Into(m, k, v, op, zero);
    var rest, h := Total(m - {k}, op, zero), Held(m, k, zero);
    assert Total(m, op, zero) == op(rest, h) by { TotalHeld(m, k, op, zero); }
    assert Total(m', op, zero) == op(rest, op(h, v)) by {
      TotalHeld(m', k, op, zero);
      assert m' - {k} == m - {k};
    }
    Grouped(op, zero, rest, h, v);
  }

  /** A table into which every element is accumulated, each under its own key. */
  function IntoAll<X, K, T>(xs: seq<X>, key: X -> K, f: X -> T, op: (T, T) -> T, zero: T): map<K, T>
    decreases |xs|
  {
    if xs == [] then map[]
    else
      var n := |xs| - 1;
      Into(IntoAll(xs[..n], key, f, op, zero), key(xs[n]), f(xs[n]), op, zero)
  }

  lemma {:induction false} IntoAllTotal<X, K(!new), T(!new)>(xs: seq<X>, key: X -> K, f: X -> T,
                                                             op: (T, T) -> T, zero: T)
    requires Monoid(op, zero)
    ensures Total(IntoAll(xs, key, f, op, zero), op, zero) == Fold(xs, f, op, zero)
    decreases |xs|
  {
    if xs != [] {
      var n := |xs| - 1;
      IntoAllTotal(xs[..n], key, f, op, zero);
      TotalInto(IntoAll(xs[..n], key, f, op, zero), key(xs[n]), f(xs[n]), op, zero);
    }
  }

  function Under<X, K(==)>(key: X -> K, k: K): X -> bool {
    x => key(x) == k
  }

  /** Under a key the table holds what the elements with this key amount to. */
  lemma {:induction false} IntoAllAt<X, K, T>(xs: seq<X>, key: X -> K, f: X -> T, op: (T, T) -> T, zero: T, k: K)
    ensures var m := IntoAll(xs, key, f, op, zero);
            var own := Filter(xs, Under(key, k));
            Held(m, k, zero) == Fold(own, f, op, zero) && (k in m <==> own != [])
    decreases |xs|
  {
    if xs != [] {
      var n := |xs| - 1;
      IntoAllAt(xs[..n], key, f, op, zero, k);
      assert Under(key, k)(xs[n]) == (key(xs[n]) == k);
      var own := Filter(xs[..n], Under(key, k));
      if key(xs[n]) == k {
        FoldNext(own, xs[n], f, op, zero);
        assert Filter(xs, Under(key, k)) == own + [xs[n]];
      } else {
        assert Filter(xs, Under(key, k)) == own;
      }
    }
  }

  /** The total, when the keys are gone through in any order. */
  lemma {:induction false} TotalInOrder<K(!new), T(!new)>(m: map<K, T>, av: seq<K>, f: K -> T, op: (T, T) -> T, zero: T)
    requires Distinct(av) && AnyOrder(op)
    requires (forall k :: k in m <==> k in av) && forall k :: k in m ==> f(k) == m[k]
    ensures Fold(av, f, op, zero) == Total(m, op, zero)
    decreases |av|
  {
    if av != [] {
      var n := |av| - 1;
      var rest := m - {av[n]};
      TotalWithout(m, av[n], op, zero);
      assert forall k :: k in av <==> k in av[..n] || k == av[n];
      assert forall k :: k in rest <==> k in av[..n];
      TotalInOrder(rest, av[..n], f, op, zero);
    }
  }
}

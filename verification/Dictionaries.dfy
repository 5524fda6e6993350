/** Why the tables can be thought of as dictionaries: over any run of operations the chained table answers
    as a finite map would. */
module Dictionaries {
  import opened HashTable
  import opened Options

  /** The comparator is zero exactly between elements with the same key. */
  ghost predicate Decides<T(!new), K>(hc: (T, T) -> int, key: T -> K) {
    forall x, y :: hc(x, y) == 0 <==> key(x) == key(y)
  }

  /** The elements are the values of a map, each once and under its own key. */
  ghost predicate Represents<T(!new), K(!new)>(m: multiset<T>, d: map<K, T>, key: T -> K) {
    && (forall x :: x in m ==> m[x] == 1 && key(x) in d && d[key(x)] == x)
    && (forall k :: k in d ==> d[k] in m && key(d[k]) == k)
    && |m| == |d|
  }

  lemma AddedKey<T(!new), K(!new)>(m: multiset<T>, d: map<K, T>, key: T -> K, x: T)
    requires Represents(m, d, key) && key(x) !in d
    ensures Represents(m + multiset{x}, d[key(x) := x], key)
  {
    var m', d' := m + multiset{x}, d[key(x) := x];
    assert forall k :: k in d' && k != key(x) ==> d'[k] in m;
  }

  lemma RemovedKey<T(!new), K(!new)>(m: multiset<T>, d: map<K, T>, key: T -> K, x: T)
    requires Represents(m + multiset{x}, d, key)
    ensures key(x) in d && d[key(x)] == x && Represents(m, d - {key(x)}, key)
  {
    var all, d' := m + multiset{x}, d - {key(x)};
    assert x in all;
    forall y | y in m ensures m[y] == 1 && key(y) in d' && d'[key(y)] == y {
      assert y in all;
    }
    forall k | k in d' ensures d'[k] in m {
      assert d[k] in all && d[k] != x;
    }
    assert |all| == |m| + 1;
  }

  // ---------- Runs ----------

  datatype Op<T> = Insert(ptr: T) | Search(key: T) | Delete(key: T) | Gather | Drain

  datatype Answer<T> = Code(rc: int) | Element(found: Option<T>) | Elements(ptr: seq<T>)

  /** What one operation of the table promises about its elements and its answer. */
  ghost predicate TableStep<T(!new)>(hc: (T, T) -> int, m: multiset<T>, op: Op<T>, answer: Answer<T>, m': multiset<T>) {
    match op
    case Insert(x) =>
      var there := exists y :: y in m && hc(y, x) == 0;
      answer == Code(if there then 1 else 0) && m' == if there then m else m + multiset{x}
    case Search(x) => m' == m && answer.Element? && FoundIn(hc, m, x, answer.found)
    case Delete(x) =>
      answer.Element? && FoundIn(hc, m, x, answer.found) &&
      m == if answer.found.Some? then m' + multiset{answer.found.value} else m'
    case Gather => m' == m && answer.Elements? && multiset(answer.ptr) == m
    case Drain => m' == multiset{} && answer.Elements? && multiset(answer.ptr) == m
  }

  ghost predicate FoundIn<T(!new)>(hc: (T, T) -> int, m: multiset<T>, x: T, found: Option<T>) {
    match found
    case Some(y) => y in m && hc(y, x) == 0
    case None => forall y :: y in m ==> hc(y, x) != 0
  }

  /** The same operation on a map. */
  function MapStep<T, K>(d: map<K, T>, op: Op<T>, key: T -> K): map<K, T> {
    match op
    case Insert(x) => if key(x) in d then d else d[key(x) := x]
    case Delete(x) => d - {key(x)}
    case Drain => map[]
    case _ => d
  }

  function LookUp<T, K>(d: map<K, T>, k: K): Option<T> {
    if k in d then Some(d[k]) else None
  }

  /** The answers are those of the map; gathering lists every value once. */
  ghost predicate MapAnswers<T(!new), K(!new)>(d: map<K, T>, op: Op<T>, answer: Answer<T>, key: T -> K) {
    match op
    case Insert(x) => answer == Code(if key(x) in d then 1 else 0)
    case Search(x) => answer == Element(LookUp(d, key(x)))
    case Delete(x) => answer == Element(LookUp(d, key(x)))
    case _ => answer.Elements? && |answer.ptr| == |d| && Represents(multiset(answer.ptr), d, key)
  }

  lemma FoundIsLookUp<T(!new), K(!new)>(hc: (T, T) -> int, key: T -> K, m: multiset<T>, d: map<K, T>,
                                        x: T, found: Option<T>)
    requires Decides(hc, key) && Represents(m, d, key) && FoundIn(hc, m, x, found)
    ensures found == LookUp(d, key(x))
  {
    if key(x) in d {
      assert d[key(x)] in m && hc(d[key(x)], x) == 0;
    }
  }

  lemma InsertRefines<T(!new), K(!new)>(hc: (T, T) -> int, key: T -> K, m: multiset<T>, d: map<K, T>, x: T)
    requires Decides(hc, key) && Represents(m, d, key)
    ensures (exists y :: y in m && hc(y, x) == 0) <==> key(x) in d
    ensures key(x) !in d ==> Represents(m + multiset{x}, d[key(x) := x], key)
  {
    if key(x) in d {
      assert d[key(x)] in m && hc(d[key(x)], x) == 0;
    } else {
      AddedKey(m, d, key, x);
    }
  }

  lemma DeleteRefines<T(!new), K(!new)>(hc: (T, T) -> int, key: T -> K, m: multiset<T>, d: map<K, T>,
                                        x: T, found: Option<T>, m': multiset<T>)
    requires Decides(hc, key) && Represents(m, d, key) && FoundIn(hc, m, x, found)
    requires m == if found.Some? then m' + multiset{found.value} else m'
    ensures found == LookUp(d, key(x)) && Represents(m', d - {key(x)}, key)
  {
    FoundIsLookUp(hc, key, m, d, x, found);
    if found.Some? {
      RemovedKey(m', d, key, found.value);
    } else {
      assert d - {key(x)} == d;
    }
  }

  lemma StepRefines<T(!new), K(!new)>(hc: (T, T) -> int, key: T -> K, m: multiset<T>, d: map<K, T>,
                                      op: Op<T>, answer: Answer<T>, m': multiset<T>)
    requires Decides(hc, key) && Represents(m, d, key) && TableStep(hc, m, op, answer, m')
    ensures MapAnswers(d, op, answer, key) && Represents(m', MapStep(d, op, key), key)
  {
    match op
    case Insert(x) => InsertRefines(hc, key, m, d, x);
    case Search(x) => FoundIsLookUp(hc, key, m, d, x, answer.found);
    case Delete(x) => DeleteRefines(hc, key, m, d, x, answer.found, m');
    case Gather => assert |multiset(answer.ptr)| == |answer.ptr|;
    case Drain => assert |multiset(answer.ptr)| == |answer.ptr|;
  }

  function MapRun<T, K>(ops: seq<Op<T>>, key: T -> K): map<K, T>
    decreases |ops|
  {
    if ops == [] then map[] else MapStep(MapRun(ops[..|ops| - 1], key), ops[|ops| - 1], key)
  }

  /** A table that starts empty; `states[i]` are its elements before operation `i`. */
  ghost predicate TableRun<T(!new)>(hc: (T, T) -> int, ops: seq<Op<T>>, answers: seq<Answer<T>>,
                                    states: seq<multiset<T>>) {
    && |answers| == |ops| && |states| == |ops| + 1 && states[0] == multiset{}
    && forall i :: 0 <= i < |ops| ==> TableStep(hc, states[i], ops[i], answers[i], states[i + 1])
  }

  lemma {:induction false} RunRepresents<T(!new), K(!new)>(hc: (T, T) -> int, key: T -> K, ops: seq<Op<T>>,
                                                           answers: seq<Answer<T>>, states: seq<multiset<T>>, i: nat)
    requires Decides(hc, key) && TableRun(hc, ops, answers, states) && i <= |ops|
    ensures Represents(states[i], MapRun(ops[..i], key), key)
  {
    if i > 0 {
      var j := i - 1;
      RunRepresents(hc, key, ops, answers, states, j);
      assert ops[..i][..j] == ops[..j];
      assert TableStep(hc, states[j], ops[j], answers[j], states[j + 1]);
      StepRefines(hc, key, states[j], MapRun(ops[..j], key), ops[j], answers[j], states[j + 1]);
    }
  }

  /** Over any run of insertions, searches, deletions, gatherings and drainings, the table answers as a
      finite map does. */
  lemma {:induction false} RunRefines<T(!new), K(!new)>(hc: (T, T) -> int, key: T -> K, ops: seq<Op<T>>,
                                     answers: seq<Answer<T>>, states: seq<multiset<T>>)
    requires Decides(hc, key) && TableRun(hc, ops, answers, states)
    ensures forall i :: 0 <= i < |ops| ==> MapAnswers(MapRun(ops[..i], key), ops[i], answers[i], key)
    ensures Represents(states[|ops|], MapRun(ops, key), key)
  {
    forall i | 0 <= i < |ops| ensures MapAnswers(MapRun(ops[..i], key), ops[i], answers[i], key) {
      RunRepresents(hc, key, ops, answers, states, i);
      StepRefines(hc, key, states[i], MapRun(ops[..i], key), ops[i], answers[i], states[i + 1]);
    }
    RunRepresents(hc, key, ops, answers, states, |ops|);
    assert ops[..|ops|] == ops;
  }

  /** Each method of the table is such a step. */
  method Perform<T(0, !new)>(t: HashTable<T>, op: Op<T>) returns (answer: Answer<T>)
    requires t.Valid()
    modifies t, t.table, t.entries
    ensures t.Valid() && TableStep(t.hc, old(multiset(t.Items())), op, answer, multiset(t.Items()))
    ensures fresh(t.entries - old(t.entries))
  {
    match op
    case Insert(x) =>
      var rc := t.Insert(x);
      answer := Code(rc);
    case Search(x) =>
      var r := t.Search(x);
      answer := Element(r);
    case Delete(x) =>
      var r := t.Delete(x);
      answer := Element(r);
    case Gather =>
      var _, ptr := t.Gather();
      answer := Elements(ptr[..]);
    case Drain =>
      var _, ptr := t.Drain();
      answer := Elements(ptr[..]);
  }

  lemma RunLonger<T(!new)>(hc: (T, T) -> int, ops: seq<Op<T>>, answers: seq<Answer<T>>, states: seq<multiset<T>>,
                           answer: Answer<T>, m: multiset<T>, i: nat)
    requires i < |ops| && TableRun(hc, ops[..i], answers, states)
    requires TableStep(hc, states[i], ops[i], answer, m)
    ensures TableRun(hc, ops[..i + 1], answers + [answer], states + [m])
  {
    var ops', answers', states' := ops[..i + 1], answers + [answer], states + [m];
    forall j | 0 <= j < |ops'| ensures TableStep(hc, states'[j], ops'[j], answers'[j], states'[j + 1]) {
      if j < i {
        assert ops'[j] == ops[..i][j];
      }
    }
  }

  /** Any sequence of operations on an empty table gives the answers of the map. */
  method PerformAll<T(0, !new), K(!new)>(t: HashTable<T>, ops: seq<Op<T>>, ghost key: T -> K)
    returns (answers: seq<Answer<T>>)
    requires t.Valid() && t.Items() == [] && Decides(t.hc, key)
    modifies t, t.table, t.entries
    ensures t.Valid() && |answers| == |ops|
    ensures forall i :: 0 <= i < |ops| ==> MapAnswers(MapRun(ops[..i], key), ops[i], answers[i], key)
    ensures Represents(multiset(t.Items()), MapRun(ops, key), key)
  {
    answers := [];
    ghost var states := [multiset(t.Items())];
    var i := 0;
    while i < |ops|
      invariant 0 <= i <= |ops| && t.Valid() && fresh(t.entries - old(t.entries))
      invariant TableRun(t.hc, ops[..i], answers, states) && states[i] == multiset(t.Items())
    {
      var answer := Perform(t, ops[i]);
      RunLonger(t.hc, ops, answers, states, answer, multiset(t.Items()), i);
      answers, states := answers + [answer], states + [multiset(t.Items())];
      i := i + 1;
    }
    assert ops[..i] == ops;
    RunRefines(t.hc, key, ops, answers, states);
  }
}

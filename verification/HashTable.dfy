/** The chained hash table of `mpiP-hash.c`. Elements are compared by `hc`, whose zero means
    "the same key", and placed by `hf`. */
module HashTable {
  import opened Options
  import opened Sequences

  class Entry<T> {
    const ptr: T
    var next: Entry?<T>

    constructor (ptr: T)
      ensures this.ptr == ptr && next == null
    {
      this.ptr, next := ptr, null;
    }
  }

  // ---------- Chains in memory ----------

  type Links<!T> = map<Entry<T>, Entry?<T>>

  ghost function LinksOf<T>(entries: set<Entry<T>>): Links<T>
    reads entries
  {
    map e <- entries :: e.next
  }

  /** Following the links from `from` meets exactly the entries of `chain`. */
  ghost predicate Chained<T>(m: Links<T>, from: Entry?<T>, chain: seq<Entry<T>>)
    decreases |chain|
  {
    if chain == [] then from == null
    else from == chain[0] && from in m && Chained(m, m[from], chain[1..])
  }

  lemma {:induction false} ChainedFrame<T>(m: Links<T>, m': Links<T>, from: Entry?<T>, chain: seq<Entry<T>>)
    requires Chained(m, from, chain)
    requires forall i :: 0 <= i < |chain| && chain[i] in m ==> chain[i] in m' && m'[chain[i]] == m[chain[i]]
    ensures Chained(m', from, chain)
    decreases |chain|
  {
    if chain != [] {
      forall i | 0 <= i < |chain[1..]| && chain[1..][i] in m
        ensures chain[1..][i] in m' && m'[chain[1..][i]] == m[chain[1..][i]]
      {
        assert chain[1..][i] == chain[i + 1];
      }
      ChainedFrame(m, m', m[from], chain[1..]);
    }
  }

  /** Leading the link in front of entry `k` past it takes exactly this entry out of the chain. */
  lemma {:induction false} ChainedUnlink<T>(m: Links<T>, m': Links<T>, from: Entry?<T>, chain: seq<Entry<T>>, k: nat)
    requires Chained(m, from, chain) && 0 < k < |chain| && Distinct(chain)
    requires chain[k - 1] in m' && chain[k] in m && m'[chain[k - 1]] == m[chain[k]]
    requires forall e :: e in m && e != chain[k - 1] ==> e in m' && m'[e] == m[e]
    ensures Chained(m', from, chain[..k] + chain[k + 1..])
    decreases k
  {
    var rest := chain[1..];
    assert Distinct(rest);
    if k == 1 {
      assert rest[0] == chain[1] && rest[1..] == chain[2..];
      assert Chained(m, m[chain[1]], chain[2..]);
      forall i | 0 <= i < |chain[2..]| ensures chain[2..][i] != chain[0] {
        assert chain[2..][i] == chain[i + 2];
      }
      ChainedFrame(m, m', m[chain[1]], chain[2..]);
      assert (chain[..1] + chain[2..])[1..] == chain[2..];
    } else {
      assert rest[k - 2] == chain[k - 1] && rest[k - 1] == chain[k];
      ChainedUnlink(m, m', m[from], rest, k - 1);
      assert (chain[..k] + chain[k + 1..])[1..] == rest[..k - 1] + rest[k..];
      assert chain[0] != chain[k - 1];
    }
  }

  /** The entry met after `k` links, and what its link leads to. */
  lemma {:induction false} ChainedAt<T>(m: Links<T>, from: Entry?<T>, chain: seq<Entry<T>>, k: nat)
    requires Chained(m, from, chain) && k < |chain|
    ensures chain[k] in m && m[chain[k]] == if k + 1 < |chain| then chain[k + 1] else null
    decreases k
  {
    if k > 0 {
      ChainedAt(m, m[from], chain[1..], k - 1);
    } else {
      assert |chain| > 1 ==> chain[1..][0] == chain[1];
    }
  }

  // ---------- The table ----------

  /** What the callers' functions must be: zero of the comparator is an equivalence, and equivalent
      elements have the same hash. */
  ghost predicate Lawful<T(!new)>(hf: T -> int, hc: (T, T) -> int) {
    && (forall x :: hc(x, x) == 0)
    && (forall x, y :: hc(x, y) == 0 ==> hc(y, x) == 0 && hf(x) == hf(y))
    && (forall x, y, z {:trigger hc(x, y), hc(y, z)} :: hc(x, y) == 0 && hc(y, z) == 0 ==> hc(x, z) == 0)
  }

  /** The hash, converted to an unsigned 32-bit number, modulo the size. */
  function Index(hash: int, size: int): (i: nat)
    requires size > 0
    ensures i < size
  {
    (hash % 0x1_0000_0000) % size
  }

  function Ptrs<T>(chain: seq<Entry<T>>): (s: seq<T>)
    ensures |s| == |chain| && forall i :: 0 <= i < |chain| ==> s[i] == chain[i].ptr
  {
    seq(|chain|, i requires 0 <= i < |chain| => chain[i].ptr)
  }

  /** All elements in the order of gathering: bucket by bucket, each chain from its front. */
  function Elements<T>(chains: seq<seq<Entry<T>>>): seq<T> {
    Ptrs(Concat(chains))
  }

  /** Every element is in its own bucket, and no two elements of a bucket are equivalent. */
  ghost predicate Keyed<T(!new)>(chains: seq<seq<Entry<T>>>, hf: T -> int, hc: (T, T) -> int) {
    && (forall b, i :: 0 <= b < |chains| && 0 <= i < |chains[b]| ==> Index(hf(chains[b][i].ptr), |chains|) == b)
    && (forall b, i, j :: 0 <= b < |chains| && 0 <= i < j < |chains[b]| ==> hc(chains[b][i].ptr, chains[b][j].ptr) != 0)
  }

  ghost predicate Hung<T>(m: Links<T>, heads: seq<Entry?<T>>, chains: seq<seq<Entry<T>>>) {
    |heads| == |chains| && forall b :: 0 <= b < |chains| ==> Chained(m, heads[b], chains[b])
  }

  lemma InElements<T>(chains: seq<seq<Entry<T>>>, x: T)
    ensures x in Elements(chains) <==>
            exists b, i :: 0 <= b < |chains| && 0 <= i < |chains[b]| && chains[b][i].ptr == x
  {
    var f := Concat(chains);
    if x in Elements(chains) {
      var k :| 0 <= k < |f| && f[k].ptr == x;
      ConcatMembers(chains, f[k]);
      var b :| 0 <= b < |chains| && f[k] in chains[b];
      var i :| 0 <= i < |chains[b]| && chains[b][i] == f[k];
    }
    if b, i :| 0 <= b < |chains| && 0 <= i < |chains[b]| && chains[b][i].ptr == x {
      ConcatMembers(chains, chains[b][i]);
      assert chains[b][i] in f;
      var k :| 0 <= k < |f| && f[k] == chains[b][i];
      assert Elements(chains)[k] == x;
    }
  }

  /** An element equivalent to `key` can only be in the bucket of `key`, and only once. */
  lemma BucketDecides<T(!new)>(chains: seq<seq<Entry<T>>>, hf: T -> int, hc: (T, T) -> int, key: T)
    requires Lawful(hf, hc) && |chains| > 0 && Keyed(chains, hf, hc)
    ensures var c := chains[Index(hf(key), |chains|)];
            (exists x :: x in Elements(chains) && hc(x, key) == 0) <==>
            exists i :: 0 <= i < |c| && hc(c[i].ptr, key) == 0
  {
    var n := Index(hf(key), |chains|);
    if x :| x in Elements(chains) && hc(x, key) == 0 {
      InElements(chains, x);
      var b, i :| 0 <= b < |chains| && 0 <= i < |chains[b]| && chains[b][i].ptr == x;
      assert b == n;
    }
    if i :| 0 <= i < |chains[n]| && hc(chains[n][i].ptr, key) == 0 {
      InElements(chains, chains[n][i].ptr);
    }
  }

  /** No two elements of the whole table are equivalent. */
  lemma NoTwoEqual<T(!new)>(chains: seq<seq<Entry<T>>>, hf: T -> int, hc: (T, T) -> int, b: nat, i: nat, c: nat, j: nat)
    requires Lawful(hf, hc) && Keyed(chains, hf, hc)
    requires b < |chains| && i < |chains[b]| && c < |chains| && j < |chains[c]| && (b, i) != (c, j)
    ensures hc(chains[b][i].ptr, chains[c][j].ptr) != 0
  {
    if b == c && j < i {
      assert hc(chains[b][j].ptr, chains[b][i].ptr) != 0;
    }
  }

  lemma ElementsSplit<T>(chains: seq<seq<Entry<T>>>, b: nat)
    requires b < |chains|
    ensures Elements(chains) == Ptrs(Concat(chains[..b])) + Ptrs(chains[b]) + Ptrs(Concat(chains[b + 1..]))
  {
    ConcatSplit(chains, b);
  }

  lemma {:induction false} ElementsPrepend<T>(chains: seq<seq<Entry<T>>>, b: nat, e: Entry<T>)
    requires b < |chains|
    ensures var c := chains[b := [e] + chains[b]];
            multiset(Elements(c)) == multiset(Elements(chains)) + multiset{e.ptr} &&
            |Elements(c)| == |Elements(chains)| + 1
  {
    var c := chains[b := [e] + chains[b]];
    ElementsSplit(chains, b);
    ElementsSplit(c, b);
    assert c[..b] == chains[..b] && c[b + 1..] == chains[b + 1..];
    assert Ptrs([e] + chains[b]) == [e.ptr] + Ptrs(chains[b]);
  }

  lemma {:induction false} ElementsRemove<T>(chains: seq<seq<Entry<T>>>, b: nat, k: nat)
    requires b < |chains| && k < |chains[b]|
    ensures var c, x := chains[b := chains[b][..k] + chains[b][k + 1..]], chains[b][k].ptr;
            multiset(Elements(chains)) == multiset(Elements(c)) + multiset{x} && |Elements(c)| == |Elements(chains)| - 1
  {
    var l, x, r := chains[b][..k], chains[b][k], chains[b][k + 1..];
    var c := chains[b := l + r];
    ElementsSplit(chains, b);
    ElementsSplit(c, b);
    assert c[..b] == chains[..b] && c[b + 1..] == chains[b + 1..];
    PtrsWithout(chains[b], k);
    OneLess(Ptrs(Concat(chains[..b])), Ptrs(l), x.ptr, Ptrs(r), Ptrs(Concat(chains[b + 1..])));
  }

  lemma PtrsWithout<T>(chain: seq<Entry<T>>, k: nat)
    requires k < |chain|
    ensures Ptrs(chain) == Ptrs(chain[..k]) + [chain[k].ptr] + Ptrs(chain[k + 1..])
    ensures Ptrs(chain[..k] + chain[k + 1..]) == Ptrs(chain[..k]) + Ptrs(chain[k + 1..])
  {
  }

  lemma OneLess<T>(a: seq<T>, l: seq<T>, x: T, r: seq<T>, d: seq<T>)
    ensures multiset(a + (l + [x] + r) + d) == multiset(a + (l + r) + d) + multiset{x}
  {
  }

  ghost predicate Untouched<T>(m: Links<T>, m': Links<T>, chain: seq<Entry<T>>) {
    forall e :: e in chain && e in m ==> e in m' && m'[e] == m[e]
  }

  /** A chain is replaced, and with it the head of its bucket. */
  lemma HungUpdate<T>(m: Links<T>, m': Links<T>, heads: seq<Entry?<T>>, chains: seq<seq<Entry<T>>>,
                      b: nat, head: Entry?<T>, chain: seq<Entry<T>>)
    requires Hung(m, heads, chains) && b < |chains| && Chained(m', head, chain)
    requires forall c :: 0 <= c < |chains| && c != b ==> Untouched(m, m', chains[c])
    ensures Hung(m', heads[b := head], chains[b := chain])
  {
    var heads', chains' := heads[b := head], chains[b := chain];
    forall c | 0 <= c < |chains'| ensures Chained(m', heads'[c], chains'[c]) {
      if c != b { ChainedFrame(m, m', heads[c], chains[c]); }
    }
  }

  lemma HungPrepend<T>(m: Links<T>, m': Links<T>, heads: seq<Entry?<T>>, chains: seq<seq<Entry<T>>>,
                       b: nat, e: Entry<T>)
    requires Hung(m, heads, chains) && b < |chains| && e !in m && m' == m[e := heads[b]]
    ensures Hung(m', heads[b := e], chains[b := [e] + chains[b]])
  {
    ChainedFrame(m, m', heads[b], chains[b]);
    assert ([e] + chains[b])[1..] == chains[b];
    HungUpdate(m, m', heads, chains, b, e, [e] + chains[b]);
  }

  lemma KeyedPrepend<T(!new)>(chains: seq<seq<Entry<T>>>, hf: T -> int, hc: (T, T) -> int, e: Entry<T>)
    requires Lawful(hf, hc) && |chains| > 0 && Keyed(chains, hf, hc)
    requires forall x :: x in Elements(chains) ==> hc(x, e.ptr) != 0
    ensures var b := Index(hf(e.ptr), |chains|); Keyed(chains[b := [e] + chains[b]], hf, hc)
  {
    var b := Index(hf(e.ptr), |chains|);
    var c := [e] + chains[b];
    forall i | 0 <= i < |chains[b]| ensures hc(e.ptr, chains[b][i].ptr) != 0 {
      InElements(chains, chains[b][i].ptr);
    }
    assert forall j :: 0 < j < |c| ==> c[j] == chains[b][j - 1];
  }

  lemma KeyedDistinct<T(!new)>(chains: seq<seq<Entry<T>>>, hf: T -> int, hc: (T, T) -> int, b: nat)
    requires Lawful(hf, hc) && Keyed(chains, hf, hc) && b < |chains|
    ensures Distinct(chains[b])
    ensures forall c, e :: 0 <= c < |chains| && c != b && e in chains[b] ==> e !in chains[c]
  {
    forall i, j | 0 <= i < j < |chains[b]| ensures chains[b][i] != chains[b][j] {
      assert hc(chains[b][i].ptr, chains[b][j].ptr) != 0;
    }
  }

  lemma {:induction false} HungRemove<T(!new)>(m: Links<T>, heads: seq<Entry?<T>>, chains: seq<seq<Entry<T>>>,
                            hf: T -> int, hc: (T, T) -> int, b: nat, k: nat)
    requires Lawful(hf, hc) && Keyed(chains, hf, hc) && Hung(m, heads, chains) && b < |chains| && k < |chains[b]|
    ensures chains[b][k] in m && (k > 0 ==> chains[b][k - 1] in m)
    ensures var c, next := chains[b := chains[b][..k] + chains[b][k + 1..]], m[chains[b][k]];
            if k == 0 then Hung(m, heads[b := next], c) else Hung(m[chains[b][k - 1] := next], heads, c)
  {
    ChainedAt(m, heads[b], chains[b], k);
    var next := m[chains[b][k]];
    if k == 0 {
      assert chains[b][..0] + chains[b][1..] == chains[b][1..];
      HungUpdate(m, m, heads, chains, b, next, chains[b][1..]);
    } else {
      ChainedAt(m, heads[b], chains[b], k - 1);
      KeyedDistinct(chains, hf, hc, b);
      var m' := m[chains[b][k - 1] := next];
      ChainedUnlink(m, m', heads[b], chains[b], k);
      forall c | 0 <= c < |chains| && c != b ensures Untouched(m, m', chains[c]) {
        assert chains[b][k - 1] !in chains[c];
      }
      HungUpdate(m, m', heads, chains, b, heads[b], chains[b][..k] + chains[b][k + 1..]);
      assert heads[b := heads[b]] == heads;
    }
  }

  lemma KeyedRemove<T(!new)>(chains: seq<seq<Entry<T>>>, hf: T -> int, hc: (T, T) -> int, b: nat, k: nat)
    requires Keyed(chains, hf, hc) && b < |chains| && k < |chains[b]|
    ensures Keyed(chains[b := chains[b][..k] + chains[b][k + 1..]], hf, hc)
  {
    var c := chains[b][..k] + chains[b][k + 1..];
    assert forall i :: 0 <= i < k ==> c[i] == chains[b][i];
    assert forall i :: k <= i < |c| ==> c[i] == chains[b][i + 1];
  }

  class HashTable<T(0, !new)> {
    const size: int
    const hf: T -> int
    const hc: (T, T) -> int
    const table: array<Entry?<T>>
    var count: int
    ghost var chains: seq<seq<Entry<T>>>
    ghost var entries: set<Entry<T>>

    ghost predicate Valid()
      reads this, table, entries
    {
      && Lawful(hf, hc)
      && table.Length == size == |chains| && size >= 2
      && Hung(LinksOf(entries), table[..], chains)
      && Keyed(chains, hf, hc)
      && count == |Elements(chains)|
    }

    ghost function Items(): seq<T>
      reads this
    {
      Elements(chains)
    }

    /** `h_open`; the original aborts when the size is below two. */
    constructor (size: int, hf: T -> int, hc: (T, T) -> int)
      requires size >= 2 && Lawful(hf, hc)
      ensures Valid() && Items() == [] && entries == {} && fresh(table)
      ensures this.size == size && this.hf == hf && this.hc == hc
    {
      this.size, count, this.hf, this.hc := size, 0, hf, hc;
      table := new Entry?<T>[size](_ => null);
      chains := seq(size, _ => []);
      entries := {};
      new;
      ConcatEmpty(chains);
    }

    /** The common loop of search, insertion and deletion: the first entry of the bucket that compares
        equal to `key`, and the entry in front of it. */
    method Scan(tableIndex: nat, key: T) returns (prev: Entry?<T>, index: Entry?<T>, ghost k: nat)
      requires Valid() && tableIndex == Index(hf(key), size)
      ensures k <= |chains[tableIndex]| && (index == null <==> k == |chains[tableIndex]|)
      ensures index != null ==> index == chains[tableIndex][k] && hc(index.ptr, key) == 0
      ensures prev == if k == 0 then null else chains[tableIndex][k - 1]
      ensures index == null <==> forall x :: x in Items() ==> hc(x, key) != 0
    {
      ghost var m, c := LinksOf(entries), chains[tableIndex];
      BucketDecides(chains, hf, hc, key);
      assert table[..][tableIndex] == table[tableIndex];
      assert c[0..] == c;
      prev, index, k := null, table[tableIndex], 0;
      while index != null
        invariant 0 <= k <= |c| && Chained(m, index, c[k..])
        invariant prev == if k == 0 then null else c[k - 1]
        invariant forall i :: 0 <= i < k ==> hc(c[i].ptr, key) != 0
        decreases |c| - k
      {
        assert index == c[k];
        if hc(index.ptr, key) == 0 {
          return;
        }
        assert c[k..][1..] == c[k + 1..];
        prev, index, k := index, index.next, k + 1;
      }
    }

    method Search(key: T) returns (r: Option<T>)
      requires Valid()
      ensures r.Some? ==> r.value in Items() && hc(r.value, key) == 0
      ensures r.None? ==> forall x :: x in Items() ==> hc(x, key) != 0
    {
      var tableIndex := Index(hf(key), size);
      var _, index, k := Scan(tableIndex, key);
      if index == null {
        r := None;
      } else {
        r := Some(index.ptr);
        InElements(chains, index.ptr);
      }
    }

    /** Returns one, and adds nothing, if an element with the same key is there. */
    method Insert(ptr: T) returns (rc: int)
      requires Valid()
      modifies this, table
      ensures Valid() && fresh(entries - old(entries))
      ensures rc == if exists x :: x in old(Items()) && hc(x, ptr) == 0 then 1 else 0
      ensures rc == 1 ==> Items() == old(Items()) && count == old(count)
      ensures rc == 0 ==> multiset(Items()) == old(multiset(Items())) + multiset{ptr} && count == old(count) + 1
    {
      var tableIndex := Index(hf(ptr), size);
      var het := new Entry(ptr);
      var _, index, k := Scan(tableIndex, ptr);
      if index != null {
        InElements(chains, index.ptr);
        return 1;
      }
      ghost var m, heads := LinksOf(entries), table[..];
      Prepended(m, tableIndex, het);
      Prepend(tableIndex, het);
      rc := 0;
    }

    method Prepend(tableIndex: nat, het: Entry<T>)
      requires tableIndex < table.Length == |chains| && het !in entries
      modifies this, table, het
      ensures LinksOf(entries) == old(LinksOf(entries))[het := old(table[tableIndex])]
      ensures entries == old(entries) + {het}
      ensures table[..] == old(table[..])[tableIndex := het]
      ensures chains == old(chains)[tableIndex := [het] + old(chains)[tableIndex]] && count == old(count) + 1
    {
      het.next := table[tableIndex];
      table[tableIndex] := het;
      count := count + 1;
      entries := entries + {het};
      chains := chains[tableIndex := [het] + chains[tableIndex]];
    }

    lemma Prepended(m: Links<T>, b: nat, e: Entry<T>)
      requires Valid() && m == LinksOf(entries) && b == Index(hf(e.ptr), |chains|) && e !in m
      requires forall x :: x in Elements(chains) ==> hc(x, e.ptr) != 0
      ensures var c := chains[b := [e] + chains[b]];
              Hung(m[e := table[b]], table[..][b := e], c) && Keyed(c, hf, hc) &&
              multiset(Elements(c)) == multiset(Elements(chains)) + multiset{e.ptr} &&
              |Elements(c)| == |Elements(chains)| + 1
    {
      HungPrepend(m, m[e := table[b]], table[..], chains, b, e);
      KeyedPrepend(chains, hf, hc, e);
      ElementsPrepend(chains, b, e);
    }

    method Delete(key: T) returns (r: Option<T>)
      requires Valid()
      modifies this, table, entries
      ensures Valid() && entries == old(entries)
      ensures r.None? ==> Items() == old(Items()) && count == old(count) && forall x :: x in Items() ==> hc(x, key) != 0
      ensures r.Some? ==> hc(r.value, key) == 0 && old(multiset(Items())) == multiset(Items()) + multiset{r.value} &&
                          count == old(count) - 1
    {
      var tableIndex := Index(hf(key), size);
      var prev, index, k := Scan(tableIndex, key);
      if index == null {
        return None;
      }
      Removed(LinksOf(entries), tableIndex, k);
      Unlink(tableIndex, prev, index, k);
      r := Some(index.ptr);
    }

    /** `*next_addr = het_index->next`, where the link in front is in the table or in an entry. */
    method Unlink(tableIndex: nat, prev: Entry?<T>, index: Entry<T>, ghost k: nat)
      requires tableIndex < table.Length == |chains| && k < |chains[tableIndex]| && index in entries
      requires prev != null ==> prev in entries
      modifies this`count, this`chains, table, entries
      ensures table[..] == if prev == null then old(table[..])[tableIndex := old(index.next)] else old(table[..])
      ensures LinksOf(entries) ==
              if prev == null then old(LinksOf(entries)) else old(LinksOf(entries))[prev := old(index.next)]
      ensures chains == old(chains)[tableIndex := old(chains)[tableIndex][..k] + old(chains)[tableIndex][k + 1..]]
      ensures count == old(count) - 1
    {
      if prev == null {
        table[tableIndex] := index.next;
      } else {
        prev.next := index.next;
      }
      count := count - 1;
      chains := chains[tableIndex := chains[tableIndex][..k] + chains[tableIndex][k + 1..]];
    }

    lemma Removed(m: Links<T>, b: nat, k: nat)
      requires Valid() && m == LinksOf(entries) && b < |chains| && k < |chains[b]|
      ensures chains[b][k] in m && (k > 0 ==> chains[b][k - 1] in m)
      ensures var c, next := chains[b := chains[b][..k] + chains[b][k + 1..]], m[chains[b][k]];
              (if k == 0 then Hung(m, table[..][b := next], c)
               else Hung(m[chains[b][k - 1] := next], table[..], c)) &&
              Keyed(c, hf, hc) && |Elements(c)| == |Elements(chains)| - 1 &&
              multiset(Elements(chains)) == multiset(Elements(c)) + multiset{chains[b][k].ptr}
    {
      KeyedRemove(chains, hf, hc, b, k);
      ElementsRemove(chains, b, k);
      HungRemove(m, table[..], chains, hf, hc, b, k);
    }

    /** Copies one chain, from its front, behind the `ac` elements that are there. */
    method GatherChain(i: nat, ptr: array<T>, ac: nat) returns (ac': nat)
      requires Valid() && i < size && ac + |chains[i]| <= ptr.Length && ptr != table
      modifies ptr
      ensures ac' == ac + |chains[i]| && ptr[..ac'] == old(ptr[..ac]) + Ptrs(chains[i])
    {
      ghost var m, c, k, done := LinksOf(entries), chains[i], 0, ptr[..ac];
      assert table[..][i] == table[i] && c[0..] == c;
      var index := table[i];
      ac' := ac;
      while index != null
        invariant 0 <= k <= |c| && Chained(m, index, c[k..]) && LinksOf(entries) == m
        invariant ac' == ac + k && ptr[..ac'] == done + Ptrs(c)[..k]
        decreases |c| - k
      {
        assert index == c[k];
        ptr[ac'] := index.ptr;
        ac' := ac' + 1;
        assert c[k..][1..] == c[k + 1..];
        index, k := index.next, k + 1;
      }
    }

    /** Fills a fresh array of `count` slots: bucket by bucket, each chain from its front. */
    method Gather() returns (ac: int, ptr: array<T>)
      requires Valid()
      ensures fresh(ptr) && ac == ptr.Length == count && ptr[..] == Items()
    {
      ptr := new T[count];
      ac := 0;
      var i := 0;
      while i < size
        invariant 0 <= i <= size && Valid() && fresh(ptr)
        invariant ac == |Concat(chains[..i])| <= count == ptr.Length && ptr[..ac] == Elements(chains[..i])
      {
        GatherBound(i);
        ac := GatherChain(i, ptr, ac);
        i := i + 1;
      }
      assert chains[..size] == chains;
    }

    /** There is room for the next bucket. */
    lemma GatherBound(i: nat)
      requires i < |chains| && count == |Elements(chains)|
      ensures |Concat(chains[..i])| + |chains[i]| <= count
      ensures Elements(chains[..i + 1]) == Elements(chains[..i]) + Ptrs(chains[i])
    {
      ConcatSplit(chains, i);
    }

    method Drain() returns (ac: int, ptr: array<T>)
      requires Valid()
      modifies this, table
      ensures Valid() && Items() == [] && count == 0 && entries == {}
      ensures fresh(ptr) && ac == ptr.Length == old(count) && ptr[..] == old(Items())
    {
      ac, ptr := Gather();
      var i := 0;
      while i < size
        invariant 0 <= i <= size == table.Length && forall b :: 0 <= b < i ==> table[b] == null
        invariant ptr[..] == old(Items())
      {
        table[i] := null;
        i := i + 1;
      }
      count := 0;
      chains := seq(size, _ => []);
      entries := {};
      ConcatEmpty(chains);
    }
  }
}

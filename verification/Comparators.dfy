/** What each comparator of the call-site tables and of the caches compares, and that keys that are equal
    under it hash alike. */
module Comparators {
  import opened Comparing
  import opened Dictionaries
  import opened HashTable
  import opened SourceIds

  // ---------- The comparators of the call-site tables ----------

  /** What the comparators and hash functions of call-site records look at. */
  datatype Record = Record(op: int, rank: int, csid: int, pc: seq<int>)

  function PcAt(r: Record, i: nat): int {
    if i < |r.pc| then r.pc[i] else 0
  }

  /** The loop over the stack in `trd_pc_comparator`, from level `i` on. */
  function CompareStacks(r: Record, s: Record, i: nat, depth: nat): int
    requires i <= depth
    decreases depth - i
  {
    if i == depth then 0 else Express(PcAt(r, i), PcAt(s, i), CompareStacks(r, s, i + 1, depth))
  }

  function HashStack(r: Record, depth: nat): bv32 {
    if depth == 0 then 0 else HashStack(r, depth - 1) ^ Bits(PcAt(r, depth - 1))
  }

  function ThreadCompare(depth: nat): (Record, Record) -> int {
    (r: Record, s: Record) => Express(r.op, s.op, Express(r.rank, s.rank, CompareStacks(r, s, 0, depth)))
  }

  function ThreadBits(r: Record, depth: nat): bv32 {
    52271 ^ Bits(r.op) ^ HashStack(r, depth) ^ Bits(r.rank)
  }

  function ThreadHash(depth: nat): Record -> int {
    (r: Record) => ThreadBits(r, depth) as int
  }

  method XorStack(r: Record, depth: nat) returns (res: bv32)
    ensures res == HashStack(r, depth)
  {
    res := 0;
    var i := 0;
    while i < depth
      invariant 0 <= i <= depth && res == HashStack(r, i)
    {
      res := res ^ Bits(PcAt(r, i));
      i := i + 1;
    }
  }

  function Words(r: Record, depth: nat): seq<bv32> {
    seq(depth, i requires 0 <= i < depth => Bits(PcAt(r, i)))
  }

  /** The loop adds up all levels. */
  lemma {:induction false} HashStackIs(r: Record, depth: nat)
    ensures HashStack(r, depth) == XorAll(Words(r, depth))
    decreases depth
  {
    if depth > 0 {
      HashStackIs(r, depth - 1);
      assert Words(r, depth)[..depth - 1] == Words(r, depth - 1);
    }
  }

  /** `_thrd_pc_hashkey` */
  method ThreadHashKey(r: Record, depth: nat) returns (h: bv32)
    ensures h == ThreadBits(r, depth) == 52271 ^ Bits(r.op) ^ XorAll(Words(r, depth)) ^ Bits(r.rank)
  {
    HashStackIs(r, depth);
    var res := XorStack(r, depth);
    h := 52271 ^ Bits(r.op) ^ res ^ Bits(r.rank);
  }

  function SrcCompare(r: Record, s: Record): int {
    Express(r.op, s.op, Express(r.csid, s.csid, Express(r.rank, s.rank, 0)))
  }

  function SrcHash(r: Record): int {
    (52271 ^ Bits(r.op) ^ Bits(r.rank) ^ Bits(r.csid)) as int
  }

  function SrcIdCompare(r: Record, s: Record): int {
    Express(r.op, s.op, Express(r.csid, s.csid, 0))
  }

  function SrcIdHash(r: Record): int {
    (52271 ^ Bits(r.op) ^ Bits(r.csid)) as int
  }

  function OpCompare(r: Record, s: Record): int {
    Express(r.op, s.op, 0)
  }

  function OpHash(r: Record): int {
    (52271 ^ Bits(r.op)) as int
  }

  function Stack(r: Record, depth: nat): seq<int> {
    seq(depth, i requires 0 <= i < depth => PcAt(r, i))
  }

  function ThreadKey(depth: nat): Record -> (int, int, seq<int>) {
    (r: Record) => (r.op, r.rank, Stack(r, depth))
  }

  function SrcKey(r: Record): (int, int, int) {
    (r.op, r.csid, r.rank)
  }

  function SrcIdKey(r: Record): (int, int) {
    (r.op, r.csid)
  }

  function OpKey(r: Record): int {
    r.op
  }

  lemma {:induction false} SameLevels(r: Record, s: Record, i: nat, depth: nat)
    requires i <= depth
    ensures CompareStacks(r, s, i, depth) == 0 <==> forall j :: i <= j < depth ==> PcAt(r, j) == PcAt(s, j)
    decreases depth - i
  {
    if i < depth {
      SameLevels(r, s, i + 1, depth);
    }
  }

  lemma {:induction false} SameStacks(r: Record, s: Record, depth: nat)
    ensures CompareStacks(r, s, 0, depth) == 0 <==> Stack(r, depth) == Stack(s, depth)
  {
    SameLevels(r, s, 0, depth);
    assert forall j :: 0 <= j < depth ==> Stack(r, depth)[j] == PcAt(r, j) && Stack(s, depth)[j] == PcAt(s, j);
    assert (forall j :: 0 <= j < depth ==> PcAt(r, j) == PcAt(s, j)) ==> Stack(r, depth) == Stack(s, depth);
  }

  lemma {:induction false} SameHash(r: Record, s: Record, depth: nat)
    requires forall j :: 0 <= j < depth ==> PcAt(r, j) == PcAt(s, j)
    ensures HashStack(r, depth) == HashStack(s, depth)
  {
    if depth > 0 {
      SameHash(r, s, depth - 1);
      assert PcAt(r, depth - 1) == PcAt(s, depth - 1);
    }
  }

  /** A comparator that decides by a key on which the hash depends serves for a table. */
  lemma LawfulByKey<T(!new), K>(hf: T -> int, hc: (T, T) -> int, key: T -> K)
    requires Decides(hc, key) && forall x, y :: key(x) == key(y) ==> hf(x) == hf(y)
    ensures Lawful(hf, hc)
  {
  }

  lemma ThreadDecides(depth: nat)
    ensures Decides(ThreadCompare(depth), ThreadKey(depth))
  {
    forall r: Record, s: Record
      ensures ThreadCompare(depth)(r, s) == 0 <==> ThreadKey(depth)(r) == ThreadKey(depth)(s)
    {
      SameStacks(r, s, depth);
    }
  }

  lemma ThreadHashSame(depth: nat, r: Record, s: Record)
    requires ThreadKey(depth)(r) == ThreadKey(depth)(s)
    ensures ThreadHash(depth)(r) == ThreadHash(depth)(s)
  {
    SameStacks(r, s, depth);
    SameLevels(r, s, 0, depth);
    SameHash(r, s, depth);
  }

  /** The table of a thread is a dictionary by operation, rank and stack. */
  lemma ThreadTableLawful(depth: nat)
    ensures Lawful(ThreadHash(depth), ThreadCompare(depth)) && Decides(ThreadCompare(depth), ThreadKey(depth))
  {
    var hf, hc, key := ThreadHash(depth), ThreadCompare(depth), ThreadKey(depth);
    ThreadDecides(depth);
    forall r, s | key(r) == key(s) ensures hf(r) == hf(s) {
      ThreadHashSame(depth, r, s);
    }
    LawfulByKey(hf, hc, key);
  }

  /** The collector's table of records is a dictionary by operation, id and rank. */
  lemma SrcTableLawful()
    ensures Lawful(SrcHash, SrcCompare) && Decides(SrcCompare, SrcKey)
  {
    LawfulByKey(SrcHash, SrcCompare, SrcKey);
  }

  /** The table that puts all ranks together: by operation and id. */
  lemma SrcIdTableLawful()
    ensures Lawful(SrcIdHash, SrcIdCompare) && Decides(SrcIdCompare, SrcIdKey)
  {
    LawfulByKey(SrcIdHash, SrcIdCompare, SrcIdKey);
  }

  /** The table of operations: by operation. */
  lemma OpTableLawful()
    ensures Lawful(OpHash, OpCompare) && Decides(OpCompare, OpKey)
  {
    LawfulByKey(OpHash, OpCompare, OpKey);
  }

  /** What the comparators look at, in terms of the fields. */
  lemma WhatIsCompared(r: Record, s: Record, depth: nat)
    ensures |r.pc| == |s.pc| == depth ==>
            (ThreadCompare(depth)(r, s) == 0 <==> r.op == s.op && r.rank == s.rank && r.pc == s.pc)
    ensures SrcCompare(r, s) == 0 <==> r.op == s.op && r.csid == s.csid && r.rank == s.rank
    ensures SrcIdCompare(r, s) == 0 <==> r.op == s.op && r.csid == s.csid
    ensures OpCompare(r, s) == 0 <==> r.op == s.op
  {
    if |r.pc| == |s.pc| == depth {
      SameLevels(r, s, 0, depth);
      assert forall i :: 0 <= i < depth ==> PcAt(r, i) == r.pc[i] && PcAt(s, i) == s.pc[i];
    }
  }

  // ---------- The comparators of the caches ----------

  function NumberKey(pc: int): int {
    pc
  }

  function NumberCompare(p: int, q: int): int {
    Express(p, q, 0)
  }

  function PcHash(pc: int): int {
    (662917 ^ Bits(pc)) as int
  }

  /** The cache of source locations is a dictionary by program counter. */
  lemma PcCacheLawful()
    ensures Lawful(PcHash, NumberCompare) && Decides(NumberCompare, NumberKey)
  {
    LawfulByKey(PcHash, NumberCompare, NumberKey);
  }

  /** The keys of the id cache that are ever built. */
  type BuiltFrames = f: seq<Frame> | Built(f) witness []

  /** The levels that the loops over the configured depth look at. */
  function Levelled(f: BuiltFrames, depth: nat): (g: BuiltFrames)
    ensures |g| == depth && (|f| == depth ==> g == f)
  {
    seq(depth, i requires 0 <= i < depth => if i < |f| then f[i] else Blank)
  }

  function IdKeyOf(depth: nat): BuiltFrames -> seq<Frame> {
    (f: BuiltFrames) => Levelled(f, depth)
  }

  function IdCompare(depth: nat): (BuiltFrames, BuiltFrames) -> int {
    (f: BuiltFrames, g: BuiltFrames) => CompareFrames(Levelled(f, depth), Levelled(g, depth))
  }

  function IdHash(depth: nat): BuiltFrames -> int {
    (f: BuiltFrames) => (662917 ^ HashFrames(0, Levelled(f, depth))) as int
  }

  /** The id cache is a dictionary by the frames of a stack. */
  lemma IdCacheLawful(depth: nat)
    ensures Lawful<BuiltFrames>(IdHash(depth), IdCompare(depth))
    ensures Decides<BuiltFrames, seq<Frame>>(IdCompare(depth), IdKeyOf(depth))
  {
    var hf, hc, key := IdHash(depth), IdCompare(depth), IdKeyOf(depth);
    forall f: BuiltFrames, g: BuiltFrames ensures hc(f, g) == 0 <==> key(f) == key(g) {
      CompareZero(Levelled(f, depth), Levelled(g, depth));
    }
    LawfulByKey<BuiltFrames, seq<Frame>>(hf, hc, key);
  }

  /** Without stacks its entries have no frames, and it is a dictionary by the number of the operation. */
  function StacklessHash(depth: nat): int -> int {
    (id: int) => (662917 ^ HashFrames(0, seq(depth, _ => Blank))) as int
  }

  lemma StacklessCacheLawful(depth: nat)
    ensures Lawful(StacklessHash(depth), NumberCompare) && Decides(NumberCompare, NumberKey)
  {
    LawfulByKey(StacklessHash(depth), NumberCompare, NumberKey);
  }
}

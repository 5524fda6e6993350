/** From program counters to source locations and call-site ids: the two caches of
    `mpiP-callsites.c`, their comparators and hash functions. */
module SourceIds {
  import opened Comparing
  import opened Options

  /** A C string without its terminating zero. */
  type Text = seq<bv8>

  // ---------- Comparison of strings ----------

  /** `strcmp`: bytes are compared as unsigned numbers. */
  function StrCmp(a: Text, b: Text): int {
    if a == [] || b == [] then (if a != [] then 1 else if b != [] then -1 else 0)
    else if a[0] > b[0] then 1
    else if a[0] < b[0] then -1
    else StrCmp(a[1..], b[1..])
  }

  lemma {:induction false} StrCmpZero(a: Text, b: Text)
    ensures StrCmp(a, b) == 0 <==> a == b
  {
    if a != [] && b != [] {
      StrCmpZero(a[1..], b[1..]);
      assert a == [a[0]] + a[1..] && b == [b[0]] + b[1..];
    }
  }

  // ---------- Keys of the id cache ----------

  /** One level of a stack; beyond the first NULL everything is zero. */
  datatype Frame = Frame(pc: int, filename: Option<Text>, functname: Text, line: int)

  const Blank := Frame(0, None, [], 0)

  /** The loop of `callsite_src_id_cache_comparator`, for stacks of the same depth. */
  function CompareFrames(f: seq<Frame>, g: seq<Frame>): int
    requires |f| == |g|
  {
    if f == [] then 0
    else
      var rest := Express(f[0].pc, g[0].pc, CompareFrames(f[1..], g[1..]));
      if f[0].filename.None? || g[0].filename.None? then rest
      else
        var files := StrCmp(f[0].filename.value, g[0].filename.value);
        var functs := StrCmp(f[0].functname, g[0].functname);
        if files != 0 then files
        else Express(f[0].line, g[0].line, if functs != 0 then functs else rest)
  }

  /** Characters are signed where they are widened. */
  function Widen(c: bv8): bv32 {
    if c >= 0x80 then 0xFFFF_FF00 | (c as bv32) else c as bv32
  }

  function Chars(t: Text): seq<bv32> {
    if t == [] then [] else [Widen(t[0])] + Chars(t[1..])
  }

  function XorText(res: bv32, t: Text): bv32 {
    XorFrom(res, Chars(t))
  }

  function HashFrame(res: bv32, f: Frame): bv32 {
    (if f.filename.None? then res else XorText(XorText(res, f.filename.value), f.functname)) ^ Bits(f.line)
  }

  function HashFrames(res: bv32, f: seq<Frame>): bv32
    decreases |f|
  {
    if f == [] then res else HashFrames(HashFrame(res, f[0]), f[1..])
  }

  /** The words of a level: the characters of both names, if it has any, and the line. */
  function FrameWords(f: Frame): seq<bv32> {
    (if f.filename.None? then [] else Chars(f.filename.value) + Chars(f.functname)) + [Bits(f.line)]
  }

  function KeyWords(f: seq<Frame>): seq<bv32>
    decreases |f|
  {
    if f == [] then [] else FrameWords(f[0]) + KeyWords(f[1..])
  }

  lemma HashFrameIs(res: bv32, f: Frame)
    ensures HashFrame(res, f) == XorFrom(res, FrameWords(f))
  {
    var line := [Bits(f.line)];
    if f.filename.Some? {
      var u, v := Chars(f.filename.value), Chars(f.functname);
      XorFromConcat(res, u, v);
      XorFromConcat(res, u + v, line);
    } else {
      assert [] + line == line;
    }
  }

  lemma {:induction false} HashFramesFrom(res: bv32, f: seq<Frame>)
    ensures HashFrames(res, f) == XorFrom(res, KeyWords(f))
    decreases |f|
  {
    if f != [] {
      HashFrameIs(res, f[0]);
      HashFramesFrom(HashFrame(res, f[0]), f[1..]);
      XorFromConcat(res, FrameWords(f[0]), KeyWords(f[1..]));
    }
  }

  /** The loops add up all words of all levels. */
  lemma HashFramesIs(f: seq<Frame>)
    ensures HashFrames(0, f) == XorAll(KeyWords(f))
  {
    HashFramesFrom(0, f);
    XorFromIs(0, KeyWords(f));
  }

  method XorChars(res: bv32, t: Text) returns (r: bv32)
    ensures r == XorText(res, t)
  {
    r := res;
    var j := 0;
    assert t[0..] == t;
    while j < |t|
      invariant 0 <= j <= |t| && XorText(r, t[j..]) == XorText(res, t)
    {
      assert t[j..][1..] == t[j + 1..];
      XorFromNext(r, Widen(t[j]), Chars(t[j + 1..]));
      r := r ^ Widen(t[j]);
      j := j + 1;
    }
  }

  method XorFrame(res: bv32, f: Frame) returns (r: bv32)
    ensures r == HashFrame(res, f)
  {
    r := res;
    if f.filename.Some? {
      r := XorChars(r, f.filename.value);
      r := XorChars(r, f.functname);
    }
    r := r ^ Bits(f.line);
  }

  /** `callsite_src_id_cache_hashkey` */
  method HashKey(f: seq<Frame>) returns (h: bv32)
    ensures h == 662917 ^ HashFrames(0, f)
  {
    var res: bv32 := 0;
    var i := 0;
    assert f[0..] == f;
    while i < |f|
      invariant 0 <= i <= |f| && HashFrames(res, f[i..]) == HashFrames(0, f)
    {
      assert f[i..][1..] == f[i + 1..] && f[i..][0] == f[i];
      res := XorFrame(res, f[i]);
      i := i + 1;
    }
    assert f[|f|..] == [];
    h := 662917 ^ res;
  }

  // ---------- Source locations ----------

  /** What `mpiP_find_src_loc` answers; `Failed` stands for a non-zero return. */
  datatype Found = Failed | Found(filename: Option<Text>, functname: Option<Text>, line: int)

  datatype Source = Source(filename: Text, functname: Text, line: int)

  /** "[unknown]" and "??" */
  const UNKNOWN: Text := [0x5B, 0x75, 0x6E, 0x6B, 0x6E, 0x6F, 0x77, 0x6E, 0x5D]
  const NOT_FOUND: Text := [0x3F, 0x3F]

  function Normalised(f: Found): Source {
    match f
    case Failed => Source(UNKNOWN, UNKNOWN, 0)
    case Found(file, funct, line) =>
      Source(if file.None? || StrCmp(file.value, NOT_FOUND) == 0 then UNKNOWN else file.value,
             if funct.None? then UNKNOWN else funct.value, line)
  }

  /** What a lookup that was found gives: its own file, function and line; but "[unknown]" for a name that
      is missing, and for the file "??". */
  lemma NormalisedMeans(f: Found)
    ensures var s := Normalised(f);
            && (f.Found? && f.filename.Some? && f.filename.value != NOT_FOUND ==> s.filename == f.filename.value)
            && (f.Found? && f.functname.Some? ==> s.functname == f.functname.value)
            && s.line == (if f.Found? then f.line else 0)
            && (s.filename == UNKNOWN <==>
                  f.Failed? || f.filename.None? || f.filename.value == NOT_FOUND || f.filename.value == UNKNOWN)
            && (s.functname == UNKNOWN <==> f.Failed? || f.functname.None? || f.functname.value == UNKNOWN)
  {
    if f.Found? && f.filename.Some? {
      StrCmpZero(f.filename.value, NOT_FOUND);
    }
  }

  // ---------- The key that is built for a stack ----------

  /** How many levels precede the first NULL. */
  function Levels(pc: seq<int>): (n: nat)
    ensures n <= |pc| && (forall i :: 0 <= i < n ==> pc[i] != 0) && (n < |pc| ==> pc[n] == 0)
  {
    if pc == [] || pc[0] == 0 then 0 else 1 + Levels(pc[1..])
  }

  function FrameOf(pc: int, source: int -> Source): Frame {
    var s := source(pc);
    Frame(pc, Some(s.filename), s.functname, s.line)
  }

  function FramesOf(pc: seq<int>, source: int -> Source): (f: seq<Frame>)
    ensures |f| == |pc|
  {
    seq(|pc|, i requires 0 <= i < |pc| => if i < Levels(pc) then FrameOf(pc[i], source) else Blank)
  }

  /** The frames a built key can have: named where there is a program counter, blank elsewhere. */
  predicate Built(f: seq<Frame>) {
    forall i :: 0 <= i < |f| ==> if f[i].pc == 0 then f[i] == Blank else f[i].filename.Some?
  }

  /** A level before the first NULL has its program counter and what the lookup says about it; from the
      first NULL on everything is zero. */
  lemma FramesMean(pc: seq<int>, source: int -> Source, i: nat)
    requires i < |pc|
    ensures var f := FramesOf(pc, source)[i];
            if forall j :: 0 <= j <= i ==> pc[j] != 0
            then f.pc == pc[i] && f.filename == Some(source(pc[i]).filename) &&
                 f.functname == source(pc[i]).functname && f.line == source(pc[i]).line
            else f.pc == 0 && f.filename == None && f.functname == [] && f.line == 0
  {
  }

  lemma FramesAreBuilt(pc: seq<int>, source: int -> Source)
    ensures Built(FramesOf(pc, source))
  {
  }

  /** On built keys the comparator is zero exactly when they are the same; so they hash alike. The
      NULL file names cannot confuse it, because program counters are compared in any case. */
  lemma {:induction false} CompareZero(f: seq<Frame>, g: seq<Frame>)
    requires |f| == |g| && Built(f) && Built(g)
    ensures CompareFrames(f, g) == 0 <==> f == g
    ensures CompareFrames(f, g) == 0 ==> HashFrames(0, f) == HashFrames(0, g)
  {
    if f != [] {
      forall i | 0 <= i < |f| - 1 ensures f[1..][i] == f[i + 1] && g[1..][i] == g[i + 1] {}
      CompareZero(f[1..], g[1..]);
      assert f == [f[0]] + f[1..] && g == [g[0]] + g[1..];
      if f[0].filename.Some? && g[0].filename.Some? {
        StrCmpZero(f[0].filename.value, g[0].filename.value);
        StrCmpZero(f[0].functname, g[0].functname);
      }
    }
  }

  /** Two stacks agree up to the first NULL. */
  predicate SameStack(p: seq<int>, q: seq<int>) {
    Levels(p) == Levels(q) && p[..Levels(p)] == q[..Levels(q)]
  }

  lemma LevelsUnique(pc: seq<int>, n: nat)
    requires n <= |pc| && (forall i :: 0 <= i < n ==> pc[i] != 0) && (n < |pc| ==> pc[n] == 0)
    ensures Levels(pc) == n
  {
  }

  function Pcs(f: seq<Frame>): seq<int> {
    seq(|f|, i requires 0 <= i < |f| => f[i].pc)
  }

  /** The frames remember the stack up to its first NULL, and nothing behind it. */
  lemma FramesRemember(pc: seq<int>, source: int -> Source)
    ensures Levels(Pcs(FramesOf(pc, source))) == Levels(pc)
    ensures Pcs(FramesOf(pc, source))[..Levels(pc)] == pc[..Levels(pc)]
  {
    LevelsUnique(Pcs(FramesOf(pc, source)), Levels(pc));
  }

  lemma SameFrames(p: seq<int>, q: seq<int>, source: int -> Source)
    requires |p| == |q|
    ensures FramesOf(p, source) == FramesOf(q, source) <==> SameStack(p, q)
  {
    FramesRemember(p, source);
    FramesRemember(q, source);
    if SameStack(p, q) {
      var n := Levels(p);
      assert forall i :: 0 <= i < n ==> p[i] == p[..n][i] && q[i] == q[..n][i];
      assert FramesOf(p, source) == FramesOf(q, source);
    }
  }

  // ---------- Ids over a whole run ----------

  /** `mpiPi_BASE` */
  const BASE := 1000

  /** What the id cache compares: the id made from the operation when the report has no stacks, and
      otherwise the frames alone. */
  datatype IdKey = ById(id: int) | ByFrames(frames: seq<Frame>)

  datatype Ids = Ids(cache: map<IdKey, int>, counter: int)

  function KeyOf(stackless: bool, op: int, frames: seq<Frame>): IdKey {
    if stackless then ById(op - BASE) else ByFrames(frames)
  }

  /** The state after a query; the id given is then the one in the cache. */
  function Queried(s: Ids, k: IdKey): (s': Ids)
    ensures k in s'.cache
  {
    if k in s.cache then s
    else match k
      case ById(id) => s.(cache := s.cache[k := id])
      case ByFrames(_) => Ids(s.cache[k := s.counter], s.counter + 1)
  }

  /** No two keys have the same id, except that stackless ids are numbered apart. */
  ghost predicate IdsOk(s: Ids) {
    && (forall k <- s.cache :: if k.ById? then s.cache[k] == k.id else s.cache[k] < s.counter)
    && (forall k, l :: k in s.cache && l in s.cache && k.ByFrames? && l.ByFrames? && s.cache[k] == s.cache[l] ==>
          k == l)
  }

  lemma QueriedOk(s: Ids, k: IdKey)
    requires IdsOk(s)
    ensures IdsOk(Queried(s, k)) && s.counter <= Queried(s, k).counter
    ensures k.ByFrames? ==> Queried(s, k).cache[k] < Queried(s, k).counter
  {
  }

  /** A query, or the draining of the cache by a reset. */
  datatype IdOp = Query(key: IdKey) | Drain

  function IdStep(s: Ids, op: IdOp): Ids {
    match op
    case Query(k) => Queried(s, k)
    case Drain => s.(cache := map[])
  }

  function IdRun(s: Ids, ops: seq<IdOp>): Ids
    decreases |ops|
  {
    if ops == [] then s else IdStep(IdRun(s, ops[..|ops| - 1]), ops[|ops| - 1])
  }

  /** The id that operation `i` of a run gives. */
  function IdGiven(s: Ids, ops: seq<IdOp>, i: nat): int
    requires i < |ops| && ops[i].Query?
  {
    assert ops[..i + 1][..i] == ops[..i];
    IdRun(s, ops[..i + 1]).cache[ops[i].key]
  }

  lemma {:induction false} IdRunOk(s: Ids, ops: seq<IdOp>)
    requires IdsOk(s)
    ensures IdsOk(IdRun(s, ops))
    decreases |ops|
  {
    if ops != [] {
      var n := |ops| - 1;
      IdRunOk(s, ops[..n]);
      if ops[n].Query? { QueriedOk(IdRun(s, ops[..n]), ops[n].key); }
    }
  }

  /** The counter only grows. */
  lemma {:induction false} CounterGrows(s: Ids, ops: seq<IdOp>, i: nat)
    requires IdsOk(s) && i <= |ops|
    ensures IdRun(s, ops[..i]).counter <= IdRun(s, ops).counter
    decreases |ops|
  {
    if i == |ops| {
      assert ops[..i] == ops;
    } else {
      var n := |ops| - 1;
      assert ops[..n][..i] == ops[..i];
      CounterGrows(s, ops[..n], i);
      IdRunOk(s, ops[..n]);
      if ops[n].Query? { QueriedOk(IdRun(s, ops[..n]), ops[n].key); }
    }
  }

  /** Without a drain in between, a key keeps its id. */
  lemma {:induction false} IdKept(s: Ids, ops: seq<IdOp>, i: nat, k: IdKey)
    requires i <= |ops| && k in IdRun(s, ops[..i]).cache
    requires forall m :: i <= m < |ops| ==> ops[m].Query?
    ensures k in IdRun(s, ops).cache && IdRun(s, ops).cache[k] == IdRun(s, ops[..i]).cache[k]
    decreases |ops|
  {
    var n := |ops| - 1;
    if i == |ops| {
      assert ops[..i] == ops;
    } else {
      assert ops[..n][..i] == ops[..i];
      IdKept(s, ops[..n], i, k);
    }
  }

  /** After a drain, every id in the cache is newer than all ids before it. */
  lemma {:induction false} IdsNewer(s: Ids, ops: seq<IdOp>, m: nat)
    requires IdsOk(s) && m < |ops| && ops[m].Drain?
    ensures forall k :: k in IdRun(s, ops).cache && k.ByFrames? ==> IdRun(s, ops[..m]).counter <= IdRun(s, ops).cache[k]
    decreases |ops|
  {
    var n := |ops| - 1;
    if m < n {
      assert ops[..n][..m] == ops[..m];
      IdsNewer(s, ops[..n], m);
      CounterGrows(s, ops[..n], m);
    }
  }

  lemma IdGivenOld(s: Ids, ops: seq<IdOp>, i: nat)
    requires IdsOk(s) && i < |ops| && ops[i].Query? && ops[i].key.ByFrames?
    ensures IdGiven(s, ops, i) < IdRun(s, ops[..i + 1]).counter
  {
    assert ops[..i + 1][..i] == ops[..i];
    IdRunOk(s, ops[..i]);
    QueriedOk(IdRun(s, ops[..i]), ops[i].key);
  }

  lemma DrainRenews(s: Ids, ops: seq<IdOp>, i: nat, m: nat, j: nat)
    requires IdsOk(s) && i < m < j < |ops| && ops[i].Query? && ops[m].Drain? && ops[j].Query?
    requires ops[i].key.ByFrames? && ops[j].key.ByFrames?
    ensures IdGiven(s, ops, i) < IdGiven(s, ops, j)
  {
    var q := ops[..j + 1];
    IdGivenOld(s, ops, i);
    assert ops[..m][..i + 1] == ops[..i + 1];
    CounterGrows(s, ops[..m], i + 1);
    assert q[..m] == ops[..m] && q[m] == ops[m];
    IdsNewer(s, q, m);
    assert q[..j] == ops[..j] && q[j] == ops[j];
  }

  lemma SameKeySameId(s: Ids, ops: seq<IdOp>, i: nat, j: nat)
    requires IdsOk(s) && i < j < |ops| && forall m :: i <= m <= j ==> ops[m].Query?
    requires ops[i].key.ByFrames? && ops[j].key.ByFrames?
    ensures IdGiven(s, ops, i) == IdGiven(s, ops, j) <==> ops[i].key == ops[j].key
  {
    var q := ops[..j + 1];
    assert q[..i + 1] == ops[..i + 1] && q[..j] == ops[..j] && ops[..i + 1][..i] == ops[..i];
    IdKept(s, q, i + 1, ops[i].key);
    IdRunOk(s, q);
  }

  /** Over any run of queries and drains, two queries get the same id exactly when they ask for the
      same frames and the cache was not drained in between. So ids tell distinct stacks apart, and no
      id is ever used again. */
  lemma SameIdIffSameFrames(s: Ids, ops: seq<IdOp>, i: nat, j: nat)
    requires IdsOk(s) && i < j < |ops| && ops[i].Query? && ops[j].Query?
    requires ops[i].key.ByFrames? && ops[j].key.ByFrames?
    ensures IdGiven(s, ops, i) == IdGiven(s, ops, j) <==>
            ops[i].key == ops[j].key && forall m :: i < m < j ==> ops[m].Query?
  {
    if m :| i < m < j && ops[m].Drain? {
      DrainRenews(s, ops, i, m, j);
    } else {
      SameKeySameId(s, ops, i, j);
    }
  }

  /** In terms of records: with the same lookup, the ids of two records agree exactly when their
      stacks agree up to the first NULL and there was no drain in between. */
  lemma SameIdIffSameStack(s: Ids, ops: seq<IdOp>, i: nat, j: nat, p: seq<int>, q: seq<int>, source: int -> Source)
    requires IdsOk(s) && i < j < |ops| && |p| == |q|
    requires ops[i] == Query(ByFrames(FramesOf(p, source))) && ops[j] == Query(ByFrames(FramesOf(q, source)))
    ensures IdGiven(s, ops, i) == IdGiven(s, ops, j) <==> SameStack(p, q) && forall m :: i < m < j ==> ops[m].Query?
  {
    SameIdIffSameFrames(s, ops, i, j);
    SameFrames(p, q, source);
  }

  /** Without stacks the id is the number of the operation, over any run, so different operations have
      different ids, and drains do not matter. */
  lemma StacklessIds(s: Ids, ops: seq<IdOp>, i: nat, op: int, frames: seq<Frame>)
    requires IdsOk(s) && i < |ops| && ops[i] == Query(KeyOf(true, op, frames))
    ensures IdGiven(s, ops, i) == op - BASE
  {
    assert ops[..i + 1][..i] == ops[..i];
    IdRunOk(s, ops[..i]);
    QueriedOk(IdRun(s, ops[..i]), ops[i].key);
  }

  // ---------- The caches as they are updated ----------

  /** The source that a query sees: the looked-up one, or none when lookup is off. */
  function Sources(loc: int -> Found, doLookup: bool): int -> Source {
    pc => if doLookup then Normalised(loc(pc)) else Source(UNKNOWN, UNKNOWN, 0)
  }

  lemma SourcesMean(loc: int -> Found, pc: int)
    ensures Sources(loc, true)(pc) == Normalised(loc(pc))
    ensures Sources(loc, false)(pc) == Source(UNKNOWN, UNKNOWN, 0)
  {
  }

  class SourceCache {
    const depth: nat
    const stackless: bool
    const loc: int -> Found
    var callsite_pc_cache: map<int, Source>
    var callsite_src_id_cache: map<IdKey, int>
    var callsite_src_id_counter: int

    ghost predicate Valid()
      reads this
    {
      IdsOk(State()) && forall pc <- callsite_pc_cache :: callsite_pc_cache[pc] == Normalised(loc(pc))
    }

    ghost function State(): Ids
      reads this
    {
      Ids(callsite_src_id_cache, callsite_src_id_counter)
    }

    constructor (depth: nat, stackless: bool, loc: int -> Found)
      ensures Valid() && State() == Ids(map[], 1)
      ensures this.depth == depth && this.stackless == stackless && this.loc == loc
    {
      this.depth, this.stackless, this.loc := depth, stackless, loc;
      callsite_pc_cache, callsite_src_id_cache, callsite_src_id_counter := map[], map[], 1;
    }

    /** The cache never shows: the answer is that of a fresh lookup, remembered failures included. */
    method QueryPc(pc: int) returns (rc: int, source: Source)
      requires Valid()
      modifies this`callsite_pc_cache
      ensures Valid() && source == Normalised(loc(pc))
      ensures rc == if loc(pc).Failed? || loc(pc).line == 0 then 1 else 0
      ensures var f := loc(pc);
              && (f.Found? && f.filename.Some? && f.filename.value != NOT_FOUND ==>
                    source.filename == f.filename.value)
              && (f.Found? && f.functname.Some? ==> source.functname == f.functname.value)
              && source.line == (if f.Found? then f.line else 0)
              && (source.filename == UNKNOWN <==>
                    f.Failed? || f.filename.None? || f.filename.value == NOT_FOUND || f.filename.value == UNKNOWN)
              && (source.functname == UNKNOWN <==> f.Failed? || f.functname.None? || f.functname.value == UNKNOWN)
    {
      NormalisedMeans(loc(pc));
      if pc in callsite_pc_cache {
        source := callsite_pc_cache[pc];
      } else {
        var found := loc(pc);
        if found.Found? {
          var filename := if found.filename.None? || StrCmp(found.filename.value, NOT_FOUND) == 0 then UNKNOWN
                          else found.filename.value;
          var functname := if found.functname.None? then UNKNOWN else found.functname.value;
          source := Source(filename, functname, found.line);
        } else {
          source := Source(UNKNOWN, UNKNOWN, 0);
        }
        callsite_pc_cache := callsite_pc_cache[pc := source];
      }
      rc := if source.line == 0 then 1 else 0;
    }

    /** The frames of a stack, up to its first NULL. */
    method BuildFrames(pc: seq<int>, doLookup: bool) returns (key: seq<Frame>)
      requires Valid() && |pc| == depth
      modifies this`callsite_pc_cache
      ensures Valid() && key == FramesOf(pc, Sources(loc, doLookup))
    {
      key := seq(depth, _ => Blank);
      var i := 0;
      while i < depth && pc[i] != 0
        invariant 0 <= i <= depth && Valid() && |key| == depth
        invariant i <= Levels(pc)
        invariant forall j :: 0 <= j < i ==> key[j] == FrameOf(pc[j], Sources(loc, doLookup))
        invariant forall j :: i <= j < depth ==> key[j] == Blank
      {
        var source;
        if doLookup {
          var _, s := QueryPc(pc[i]);
          source := s;
        } else {
          source := Source(UNKNOWN, UNKNOWN, 0);
        }
        key := key[i := Frame(pc[i], Some(source.filename), source.functname, source.line)];
        i := i + 1;
      }
      assert i == Levels(pc);
    }

    /** `mpiPi_query_src`: the id of the call site of a record. */
    method QuerySrc(op: int, pc: seq<int>, doLookup: bool) returns (csid: int)
      requires Valid() && |pc| == depth
      modifies this
      ensures Valid()
      ensures var k := KeyOf(stackless, op, FramesOf(pc, Sources(loc, doLookup)));
              State() == Queried(old(State()), k) && csid == State().cache[k]
      ensures stackless ==> csid == op - BASE && callsite_src_id_counter == old(callsite_src_id_counter)
      ensures !stackless ==>
        var k := ByFrames(FramesOf(pc, Sources(loc, doLookup)));
        if k in old(callsite_src_id_cache) then
          csid == old(callsite_src_id_cache)[k] && callsite_src_id_counter == old(callsite_src_id_counter)
        else csid == old(callsite_src_id_counter) && callsite_src_id_counter == csid + 1
    {
      var frames := BuildFrames(pc, doLookup);
      var key := KeyOf(stackless, op, frames);
      QueriedOk(State(), key);
      if key !in callsite_src_id_cache {
        var id;
        if stackless {
          id := op - BASE;
        } else {
          id := callsite_src_id_counter;
          callsite_src_id_counter := callsite_src_id_counter + 1;
        }
        callsite_src_id_cache := callsite_src_id_cache[key := id];
      }
      csid := callsite_src_id_cache[key];
    }

    /** The draining of the id cache when the statistics are reset. */
    method DrainIds()
      requires Valid()
      modifies this`callsite_src_id_cache
      ensures Valid() && State() == IdStep(old(State()), Drain)
      ensures callsite_src_id_cache == map[] && callsite_src_id_counter == old(callsite_src_id_counter)
    {
      callsite_src_id_cache := map[];
    }
  }
}

/** The collector: how the records of all ranks are put into the global tables. */
module Collector {
  import opened Aggregation
  import opened CallsiteStats
  import opened Folds
  import opened Grouping
  import opened Sequences
  import opened SourceIds
  import opened ThreadStats

  /** A record as a rank sends it. */
  datatype Rec = Rec(site: SiteKey, stats: SoundStats)

  function InputOf(r: Rec, stackless: bool, source: int -> Source): Input {
    Input(r.site.op, r.site.rank, KeyOf(stackless, r.site.op, FramesOf(r.site.pc, source)), r.stats)
  }

  function AsInput(stackless: bool, source: int -> Source): Rec -> Input {
    r => InputOf(r, stackless, source)
  }

  function InputsOf(rs: seq<Rec>, stackless: bool, source: int -> Source): seq<Input> {
    Map(rs, AsInput(stackless, source))
  }

  // ---------- Where records come from ----------

  /** A stack of fixed depth that ends in NULLs; none at all when stacks are not reported. */
  predicate Padded(pc: seq<int>, depth: nat, stackless: bool) {
    |pc| == depth && (forall i :: Levels(pc) <= i < |pc| ==> pc[i] == 0) && (stackless ==> Levels(pc) == 0)
  }

  lemma PaddedStacksDiffer(p: seq<int>, q: seq<int>, depth: nat, stackless: bool)
    requires Padded(p, depth, stackless) && Padded(q, depth, stackless) && (SameStack(p, q) || stackless)
    ensures p == q
  {
    var n := Levels(p);
    assert n == Levels(q);
    if n > 0 {
      assert p[..n] == q[..n];
    }
    forall i | 0 <= i < depth ensures p[i] == q[i] {
      if i < n { assert p[i] == p[..n][i] && q[i] == q[..n][i]; }
    }
  }

  /** What a rank sends: a listing of its table, with its rank in every key. */
  ghost predicate FromRank(b: seq<Rec>, rank: int, depth: nat, stackless: bool) {
    && Distinct(b)
    && (forall r :: r in b ==> r.site.rank == rank && Padded(r.site.pc, depth, stackless))
    && (forall r, s :: r in b && s in b && r.site == s.site ==> r == s)
  }

  /** The records of a rank's table as they are sent. */
  ghost function Sent(av: seq<Callsite>): (b: seq<Rec>)
    requires forall i :: 0 <= i < |av| ==> Sound(av[i].Value())
    reads av
  {
    seq(|av|, i requires 0 <= i < |av| && Sound(av[i].Value()) reads av => Rec(av[i].key, av[i].Value()))
  }

  /** What a rank gathers from its table is such a batch, when its records have its rank and padded
      stacks. */
  lemma GatheredIsBatch(av: seq<Callsite>, u: Table, rank: int, depth: nat, stackless: bool)
    requires Gathered(av, u) && SoundTable(u)
    requires forall k <- u :: k.rank == rank && Padded(k.pc, depth, stackless)
    ensures (forall i :: 0 <= i < |av| ==> Sound(av[i].Value())) && FromRank(Sent(av), rank, depth, stackless)
  {
    forall i | 0 <= i < |av| ensures Sound(av[i].Value()) && av[i].key in u {}
    var b := Sent(av);
    assert forall i :: 0 <= i < |b| ==> b[i].site == av[i].key;
  }

  /** One batch from each of several different ranks, in any order. */
  ghost predicate Batches(bs: seq<seq<Rec>>, ranks: seq<int>, size: nat, depth: nat, stackless: bool) {
    && |bs| == |ranks| && Distinct(ranks)
    && (forall i :: 0 <= i < |bs| ==> 0 <= ranks[i] < size && FromRank(bs[i], ranks[i], depth, stackless))
  }

  lemma BatchesDistinct(bs: seq<seq<Rec>>, ranks: seq<int>, size: nat, depth: nat, stackless: bool)
    requires Batches(bs, ranks, size, depth, stackless)
    ensures Distinct(Concat(bs))
    ensures forall r :: r in Concat(bs) ==> 0 <= r.site.rank < size && Padded(r.site.pc, depth, stackless)
    ensures forall r, s :: r in Concat(bs) && s in Concat(bs) && r.site == s.site ==> r == s
  {
    ConcatDistinct(bs);
    forall r | r in Concat(bs) ensures 0 <= r.site.rank < size && Padded(r.site.pc, depth, stackless) {
      ConcatMembers(bs, r);
    }
    forall r, s | r in Concat(bs) && s in Concat(bs) && r.site == s.site ensures r == s {
      ConcatMembers(bs, r);
      ConcatMembers(bs, s);
    }
  }

  lemma SameInputSameSite(r: Rec, s: Rec, depth: nat, stackless: bool, source: int -> Source)
    requires Padded(r.site.pc, depth, stackless) && Padded(s.site.pc, depth, stackless)
    requires r.site.op == s.site.op && r.site.rank == s.site.rank
    requires InputOf(r, stackless, source).key == InputOf(s, stackless, source).key
    ensures r.site == s.site
  {
    SameFrames(r.site.pc, s.site.pc, source);
    PaddedStacksDiffer(r.site.pc, s.site.pc, depth, stackless);
  }

  /** Each rank has at most one record for an operation and stack, since its table tells records apart
      by just these, and stacks end in NULLs. */
  lemma BatchesOncePerRank(bs: seq<seq<Rec>>, ranks: seq<int>, size: nat, depth: nat, stackless: bool,
                           source: int -> Source)
    requires Batches(bs, ranks, size, depth, stackless)
    ensures var xs := InputsOf(Concat(bs), stackless, source);
            OncePerRank(xs) && RanksBelow(xs, size) && KeysOfKind(xs, stackless)
  {
    var rs := Concat(bs);
    var xs := InputsOf(rs, stackless, source);
    BatchesDistinct(bs, ranks, size, depth, stackless);
    forall i, j | 0 <= i < j < |rs| && xs[i].op == xs[j].op && xs[i].rank == xs[j].rank ensures xs[i].key != xs[j].key {
      assert rs[i] in rs && rs[j] in rs && rs[i] != rs[j];
      if xs[i].key == xs[j].key {
        SameInputSameSite(rs[i], rs[j], depth, stackless, source);
      }
    }
    forall i | 0 <= i < |rs| ensures 0 <= xs[i].rank < size && xs[i].key.ById? == stackless {
      assert rs[i] in rs;
    }
  }

  /** One record makes room for itself. */
  lemma RoomForOneMore(ids: Ids, xs: seq<Input>, p: Input, stackless: bool, size: nat)
    requires IdsOk(ids) && OneKind(ids, stackless) && KeysOfKind(xs + [p], stackless)
    requires OncePerRank(xs + [p]) && RanksBelow(xs + [p], size)
    ensures |GroupAt(GroupsOf(ids, xs, false), SiteOf(IdsAfter(ids, xs), p, false))| < size
  {
    var ys := xs + [p];
    var ids', m' := IdsAfter(ids, ys), GroupsOf(ids, ys, false);
    assert ys[..|xs|] == xs;
    GroupsAreSelections(ids, ys, false, stackless);
    assert GroupOk(ids', m', ys, false, p.op, p.key, p.rank);
    SitesHaveRoom(ys, p.op, p.key, size);
  }

  // ---------- The tables as they are updated ----------

  /** What a row of the table that puts all ranks together says. */
  datatype Summary = Summary(stats: SoundStats, times: seq<real>)

  function Summarised(g: seq<Input>): Summary {
    Summary(Sum(g), Times(g))
  }

  function Summaries(m: Groups): map<Site, Summary> {
    map s <- m :: Summarised(m[s])
  }

  /** The row as it is stored; `siteData` is there when the coefficient of variation is asked for. */
  datatype Row = Row(stats: SoundStats, siteData: array?<real>, siteDataIdx: nat)

  ghost predicate RowOk(row: Row, v: Summary, calcCOV: bool, size: nat)
    reads row.siteData
  {
    && row.stats == v.stats
    && (calcCOV ==> row.siteData != null && row.siteData.Length == size && row.siteDataIdx == |v.times| <= size &&
                    row.siteData[..row.siteDataIdx] == v.times)
  }

  /** What a further record makes of the summaries. */
  function Extended(v: map<Site, Summary>, s: Site, stats: SoundStats): map<Site, Summary> {
    v[s := if s in v then Summary(Merged(v[s].stats, stats), v[s].times + [stats.time])
           else Summary(stats, [stats.time])]
  }

  lemma FirstSummary(p: Input)
    ensures Summarised([p]) == Summary(p.stats, [p.stats.time])
  {
    SumNext([], p);
    MapNext([], p, Elapsed);
    MergeLaws(p.stats, p.stats, p.stats);
    assert [] + [p] == [p];
  }

  lemma NextSummary(g: seq<Input>, p: Input)
    ensures Summarised(g + [p]) == Summary(Merged(Sum(g), p.stats), Times(g) + [p.stats.time])
  {
    SumNext(g, p);
    MapNext(g, p, Elapsed);
  }

  lemma SummariesUpdate(m: Groups, s: Site, g: seq<Input>)
    ensures Summaries(m[s := g]) == Summaries(m)[s := Summarised(g)]
  {
  }

  lemma SummariesExtended(m: Groups, s: Site, p: Input)
    ensures Summaries(m[s := GroupAt(m, s) + [p]]) == Extended(Summaries(m), s, p.stats)
  {
    SummariesUpdate(m, s, GroupAt(m, s) + [p]);
    if s in m {
      NextSummary(m[s], p);
    } else {
      FirstSummary(p);
      assert [] + [p] == [p];
    }
  }

  class SiteTable {
    const size: nat
    const calcCOV: bool
    var rows: map<Site, Row>
    ghost var view: map<Site, Summary>
    ghost var arrays: set<array<real>>

    ghost predicate Valid()
      reads this, arrays
    {
      && rows.Keys == view.Keys
      && (forall s <- rows :: rows[s].siteData == null || rows[s].siteData in arrays)
      && (forall s <- rows :: RowOk(rows[s], view[s], calcCOV, size))
      && (calcCOV ==> forall s, t :: s in rows && t in rows && s != t ==> rows[s].siteData != rows[t].siteData)
    }

    constructor (size: nat, calcCOV: bool)
      ensures Valid() && view == map[] && arrays == {} && this.size == size && this.calcCOV == calcCOV
    {
      this.size, this.calcCOV, rows, view, arrays := size, calcCOV, map[], map[], {};
    }

    method NewRow(s: Site, stats: SoundStats)
      requires Valid() && s !in rows && size > 0
      modifies this`rows, this`view, this`arrays
      ensures Valid() && view == Extended(old(view), s, stats) && fresh(arrays - old(arrays))
    {
      view := Extended(view, s, stats);
      if calcCOV {
        var siteData := new real[size];
        siteData[0] := stats.time;
        assert siteData[..1] == [stats.time];
        rows := rows[s := Row(stats, siteData, 1)];
        arrays := arrays + {siteData};
      } else {
        rows := rows[s := Row(stats, null, 0)];
      }
    }

    method AppendTime(row: Row, ghost v: Summary, time: real)
      requires row.siteData != null && row.siteDataIdx == |v.times| < row.siteData.Length
      requires row.siteData[..row.siteDataIdx] == v.times
      modifies row.siteData
      ensures row.siteData[..row.siteDataIdx + 1] == v.times + [time]
    {
      row.siteData[row.siteDataIdx] := time;
    }

    /** The other rows have other arrays. */
    method AppendAt(s: Site, time: real)
      requires Valid() && calcCOV && s in rows && |view[s].times| < size
      modifies arrays
      ensures rows[s].siteData != null && rows[s].siteData.Length == size
      ensures rows[s].siteData[..rows[s].siteDataIdx + 1] == view[s].times + [time]
      ensures forall t <- rows :: t != s ==> RowOk(rows[t], view[t], calcCOV, size)
    {
      assert RowOk(rows[s], view[s], calcCOV, size);
      AppendTime(rows[s], view[s], time);
    }

    /** One row is replaced; the others are as they should be. */
    method PutRow(s: Site, row: Row, ghost v: Summary)
      requires rows.Keys == view.Keys && s in rows && row.siteData == rows[s].siteData
      requires forall t <- rows :: rows[t].siteData == null || rows[t].siteData in arrays
      requires RowOk(row, v, calcCOV, size) && forall t <- rows :: t != s ==> RowOk(rows[t], view[t], calcCOV, size)
      requires calcCOV ==> forall t, u :: t in rows && u in rows && t != u ==> rows[t].siteData != rows[u].siteData
      modifies this`rows, this`view
      ensures Valid() && view == old(view)[s := v]
    {
      rows, view := rows[s := row], view[s := v];
    }

    method MergeRow(s: Site, stats: SoundStats)
      requires Valid() && s in rows && |view[s].times| < size
      modifies this`rows, this`view, arrays
      ensures Valid() && view == Extended(old(view), s, stats)
    {
      var row := rows[s];
      assert RowOk(row, view[s], calcCOV, size);
      var stats' := Merged(row.stats, stats);
      ghost var v := Summary(stats', view[s].times + [stats.time]);
      if calcCOV {
        AppendAt(s, stats.time);
        PutRow(s, Row(stats', row.siteData, row.siteDataIdx + 1), v);
      } else {
        PutRow(s, Row(stats', row.siteData, row.siteDataIdx), v);
      }
    }

    /** Looks the site up; merges into its row, or inserts a copy. The next slot of `siteData` is
        within the array. */
    method InsertAt(s: Site, stats: SoundStats)
      requires Valid() && if s in view then |view[s].times| < size else 0 < size
      modifies this`rows, this`view, this`arrays, arrays
      ensures Valid() && view == Extended(old(view), s, stats) && fresh(arrays - old(arrays))
    {
      if s in rows {
        MergeRow(s, stats);
      } else {
        NewRow(s, stats);
      }
    }
  }

  /** At most one record of each rank for an operation and stack, and no more ranks than there are. */
  ghost predicate Fits(xs: seq<Input>, size: nat) {
    OncePerRank(xs) && RanksBelow(xs, size)
  }

  lemma FitsPrefix(rs: seq<Rec>, n: nat, size: nat, stackless: bool, source: int -> Source)
    requires n <= |rs| && Fits(InputsOf(rs, stackless, source), size)
    ensures Fits(InputsOf(rs[..n], stackless, source), size)
  {
    var xs := InputsOf(rs, stackless, source);
    assert InputsOf(rs[..n], stackless, source) == xs[..n];
  }

  lemma NextFits(done: seq<Rec>, b: seq<Rec>, i: nat, size: nat, stackless: bool, source: int -> Source)
    requires i < |b| && Fits(InputsOf(done + b, stackless, source), size)
    ensures InputsOf(done + b[..i + 1], stackless, source) ==
            InputsOf(done + b[..i], stackless, source) + [InputOf(b[i], stackless, source)]
    ensures Fits(InputsOf(done + b[..i + 1], stackless, source), size)
  {
    MapNext(done + b[..i], b[i], AsInput(stackless, source));
    assert done + b[..i + 1] == done + b[..i] + [b[i]] == (done + b)[..|done| + i + 1];
    FitsPrefix(done + b, |done| + i + 1, size, stackless, source);
  }

  /** Each batch fits behind those before it. */
  lemma BatchOfBatches(bs: seq<seq<Rec>>, ranks: seq<int>, i: nat, size: nat, depth: nat, stackless: bool,
                       source: int -> Source)
    requires Batches(bs, ranks, size, depth, stackless) && i < |bs|
    ensures Concat(bs[..i + 1]) == Concat(bs[..i]) + bs[i]
    ensures Fits(InputsOf(Concat(bs[..i]) + bs[i], stackless, source), size)
    ensures forall j :: 0 <= j < |bs[i]| ==> |bs[i][j].site.pc| == depth
  {
    assert bs[..i + 1][..i] == bs[..i];
    assert Batches(bs[..i + 1], ranks[..i + 1], size, depth, stackless);
    BatchesOncePerRank(bs[..i + 1], ranks[..i + 1], size, depth, stackless, source);
    forall j | 0 <= j < |bs[i]| ensures |bs[i][j].site.pc| == depth {
      assert bs[i][j] in bs[i];
    }
  }

  // ---------- The whole report ----------

  /** The batches of the ranks may arrive in any order: the tables of sites agree up to a one-to-one
      renaming of ids and the order of the times of a site; the table of operations, the totals and
      the times of the ranks are the same. */
  lemma {:induction false} ArrivalOrder(ids: Ids, bs: seq<seq<Rec>>, cs: seq<seq<Rec>>, av: seq<Site>, bv: seq<Site>,
                     size: nat, stackless: bool, source: int -> Source)
    requires multiset(bs) == multiset(cs) && IdsOk(ids) && OneKind(ids, stackless)
    requires Lists(av, SumsOf(ids, InputsOf(Concat(bs), stackless, source), false))
    requires Lists(bv, SumsOf(ids, InputsOf(Concat(cs), stackless, source), false))
    ensures var xs, ys := InputsOf(Concat(bs), stackless, source), InputsOf(Concat(cs), stackless, source);
            && (forall byRank :: AgreeUpToIds(IdsAfter(ids, xs), GroupsOf(ids, xs, byRank),
                                              IdsAfter(ids, ys), GroupsOf(ids, ys, byRank), byRank))
            && OpSums(SumsOf(ids, xs, false), av) == OpSums(SumsOf(ids, ys, false), bv)
            && TotalsOf(xs) == TotalsOf(ys) && TaskTimes(xs, size) == TaskTimes(ys, size)
  {
    var xs, ys := InputsOf(Concat(bs), stackless, source), InputsOf(Concat(cs), stackless, source);
    ConcatPermutation(bs, cs);
    MapPermutation(Concat(bs), Concat(cs), AsInput(stackless, source));
    assert KeysOfKind(xs, stackless);
    forall byRank ensures AgreeUpToIds(IdsAfter(ids, xs), GroupsOf(ids, xs, byRank),
                                       IdsAfter(ids, ys), GroupsOf(ids, ys, byRank), byRank) {
      SitesInAnyOrder(ids, xs, ys, byRank, stackless);
    }
    OpsInAnyOrder(ids, xs, ys, av, bv);
    TotalsInAnyOrder(xs, ys, size);
  }

  lemma KindsNext(xs: seq<Input>, r: Rec, stackless: bool, source: int -> Source)
    requires KeysOfKind(xs, stackless)
    ensures KeysOfKind(xs + [InputOf(r, stackless, source)], stackless)
  {
  }

  lemma AddShare(base: Totals, xs: seq<Input>, p: Input)
    ensures Add(base, TotalsOf(xs + [p])) == Add(Add(base, TotalsOf(xs)), Share(p))
  {
    FoldNext(xs, p, Share, Add, NoTotals);
  }

  lemma InsertedNext(start: Ids, xs: seq<Input>, p: Input, byRank: bool)
    ensures IdsAfter(start, xs + [p]) == Queried(IdsAfter(start, xs), p.key)
    ensures GroupsOf(start, xs + [p], byRank) ==
            GroupInsert(IdsAfter(start, xs), GroupsOf(start, xs, byRank), p, byRank)
    ensures SumsOf(start, xs + [p], byRank) ==
            Into<Site, SoundStats>(SumsOf(start, xs, byRank), SiteOf(IdsAfter(start, xs), p, byRank), p.stats,
                                   Merged, Zero)
  {
    assert (xs + [p])[..|xs|] == xs;
    SumsInsert(IdsAfter(start, xs), GroupsOf(start, xs, byRank), p, byRank);
  }

  /** A row of the table of operations, numbered by the operation. */
  datatype OpRow = OpRow(csid: int, stats: SoundStats)

  function OpRows(t: map<int, SoundStats>): map<int, OpRow> {
    map op <- t :: OpRow(op - BASE, t[op])
  }

  lemma OpRowsInto(t: map<int, SoundStats>, op: int, v: SoundStats)
    ensures OpRows(Into<int, SoundStats>(t, op, v, Merged, Zero)) ==
            OpRows(t)[op := OpRow(op - BASE, if op in t then Merged(t[op], v) else v)]
  {
    MergeLaws(v, v, v);
  }

  lemma OpSumsNext(t: map<Site, SoundStats>, av: seq<Site>, s: Site)
    requires s in t
    ensures OpSums(t, av + [s]) == Into<int, SoundStats>(OpSums(t, av), s.op, t[s], Merged, Zero)
  {
    assert (av + [s])[..|av|] == av;
  }

  /** The part of a listing that is done, and what is left. */
  ghost predicate Listing(av: seq<Site>, left: set<Site>, all: set<Site>) {
    Distinct(av) && (forall s :: s in all <==> s in av || s in left) && forall s :: s in left ==> s !in av
  }

  lemma ListingNext(av: seq<Site>, left: set<Site>, all: set<Site>, s: Site)
    requires Listing(av, left, all) && s in left
    ensures Listing(av + [s], left - {s}, all)
  {
  }

  function StatsOfSummaries(v: map<Site, Summary>): map<Site, SoundStats> {
    map s <- v :: v[s].stats
  }

  lemma OpRowsMean(ids: Ids, xs: seq<Input>, av: seq<Site>)
    requires Lists(av, SumsOf(ids, xs, false))
    ensures var ops := OpRows(OpSums(SumsOf(ids, xs, false), av));
            (forall op :: op in ops <==> Select(xs, OfOp(op)) != []) &&
            forall op <- ops :: ops[op] == OpRow(op - BASE, Sum(Select(xs, OfOp(op))))
  {
    var t := OpSums(SumsOf(ids, xs, false), av);
    forall op
      ensures op in t <==> Select(xs, OfOp(op)) != []
      ensures op in t ==> t[op] == Sum(Select(xs, OfOp(op)))
    {
      OpTableMeans(ids, xs, av, op);
      assert op in t ==> Held(t, op, Zero) == t[op];
    }
  }

  class Collector {
    const size: nat
    const collectiveReport: bool
    const doLookup: bool
    const cache: SourceCache
    const sites: SiteTable
    var ops: map<int, OpRow>
    const taskTime: array<real>
    var sitesByRank: map<Site, SoundStats>
    var totals: Totals
    ghost const start: Ids
    ghost const base: Totals

    /** What the tables say when the records `xs` are in. */
    ghost predicate Says(xs: seq<Input>)
      reads this`sitesByRank, this`totals, sites, sites.arrays, taskTime
    {
      && sites.size == size && taskTime !in sites.arrays
      && sites.Valid() && sites.view == Summaries(GroupsOf(start, xs, false))
      && sitesByRank == (if collectiveReport then map[] else SumsOf(start, xs, true))
      && taskTime[..] == TaskTimes(xs, size)
      && totals == Add(base, TotalsOf(xs))
    }

    /** The id caches after the records `xs`. */
    ghost predicate CacheOk(xs: seq<Input>)
      reads cache
    {
      cache.Valid() && IdsOk(start) && OneKind(start, cache.stackless) &&
      KeysOfKind(xs, cache.stackless) && cache.State() == IdsAfter(start, xs)
    }

    /** Exactly the records `xs` have got their ids and are in the tables. */
    ghost predicate Holds(xs: seq<Input>)
      reads this`sitesByRank, this`totals, cache, sites, sites.arrays, taskTime
    {
      CacheOk(xs) && Says(xs)
    }

    function InputFor(r: Rec): Input
    {
      InputOf(r, cache.stackless, Sources(cache.loc, doLookup))
    }

    /** Opens the tables for a report. The time and the size start from zero; the other totals go on from
        what earlier reports have left. */
    constructor (size: nat, collectiveReport: bool, calcCOV: bool, doLookup: bool, cache: SourceCache, carried: Totals)
      requires cache.Valid() && OneKind(cache.State(), cache.stackless)
      ensures Holds([]) && fresh(sites) && fresh(sites.arrays) && fresh(taskTime)
      ensures this.size == size && this.collectiveReport == collectiveReport && this.doLookup == doLookup
      ensures this.cache == cache && sites.calcCOV == calcCOV && start == cache.State()
      ensures base == carried.(time := 0.0, size := 0.0)
    {
      this.size, this.collectiveReport, this.doLookup, this.cache := size, collectiveReport, doLookup, cache;
      sites := new SiteTable(size, calcCOV);
      taskTime := new real[size](_ => 0.0);
      sitesByRank, ops := map[], map[];
      totals := carried.(time := 0.0, size := 0.0);
      base := carried.(time := 0.0, size := 0.0);
      start := Ids(cache.callsite_src_id_cache, cache.callsite_src_id_counter);
    }

    method InsertByRank(s: Site, stats: SoundStats)
      modifies this`sitesByRank
      ensures sitesByRank == if collectiveReport then old(sitesByRank)
                             else Into<Site, SoundStats>(old(sitesByRank), s, stats, Merged, Zero)
    {
      MergeLaws(stats, stats, stats);
      if !collectiveReport {
        if s in sitesByRank {
          sitesByRank := sitesByRank[s := Merged(sitesByRank[s], stats)];
        } else {
          sitesByRank := sitesByRank[s := stats];
        }
      }
    }

    method AddAt(rank: nat, time: real)
      requires rank < taskTime.Length
      modifies taskTime
      ensures taskTime[..] == old(taskTime[..])[rank := old(taskTime[..])[rank] + time]
    {
      taskTime[rank] := taskTime[rank] + time;
    }

    method AddTaskTime(p: Input, ghost xs: seq<Input>)
      requires taskTime[..] == TaskTimes(xs, size) && 0 <= p.rank < size
      modifies taskTime
      ensures taskTime[..] == TaskTimes(xs + [p], size)
    {
      ghost var t := taskTime[..];
      AddAt(p.rank, p.stats.time);
      assert taskTime[..] == t[p.rank := t[p.rank] + p.stats.time];
      TaskTimesNext(xs, p, size);
    }

    method AddTotals(p: Input)
      modifies this`totals
      ensures totals == Add(old(totals), Share(p))
    {
      var s := p.stats;
      totals := totals.(time := totals.time + s.time, size := totals.size + s.dataSent,
                        io := totals.io + s.io, rma := totals.rma + s.rma);
      if s.time > 0.0 {
        totals := totals.(callsites := totals.callsites + 1);
      }
      if s.dataSent > 0.0 {
        totals := totals.(messages := totals.messages + s.messages, sent := totals.sent + s.count);
      }
    }

    /** Puts a record with its id into every table. */
    method Enter(p: Input, csid: int, ghost m: Groups, ghost xs: seq<Input>)
      requires sites.Valid() && sites.view == Summaries(m) && |GroupAt(m, Site(p.op, csid, -1))| < size == sites.size
      requires taskTime[..] == TaskTimes(xs, size) && 0 <= p.rank < size && taskTime !in sites.arrays
      modifies this`sitesByRank, this`totals, sites`rows, sites`view, sites`arrays, sites.arrays, taskTime
      ensures fresh(sites.arrays - old(sites.arrays)) && taskTime !in sites.arrays
      ensures var s := Site(p.op, csid, -1);
              sites.Valid() && sites.view == Summaries(m[s := GroupAt(m, s) + [p]])
      ensures sitesByRank == if collectiveReport then old(sitesByRank)
                             else Into<Site, SoundStats>(old(sitesByRank), Site(p.op, csid, p.rank), p.stats,
                                                         Merged, Zero)
      ensures taskTime[..] == TaskTimes(xs + [p], size)
      ensures totals == Add(old(totals), Share(p))
    {
      EnterSums(p, csid, xs);
      SummariesExtended(m, Site(p.op, csid, -1), p);
      sites.InsertAt(Site(p.op, csid, -1), p.stats);
    }

    method EnterSums(p: Input, csid: int, ghost xs: seq<Input>)
      requires taskTime[..] == TaskTimes(xs, size) && 0 <= p.rank < size
      modifies this`sitesByRank, this`totals, taskTime
      ensures sitesByRank == if collectiveReport then old(sitesByRank)
                             else Into<Site, SoundStats>(old(sitesByRank), Site(p.op, csid, p.rank), p.stats,
                                                         Merged, Zero)
      ensures taskTime[..] == TaskTimes(xs + [p], size)
      ensures totals == Add(old(totals), Share(p))
    {
      AddTotals(p);
      InsertByRank(Site(p.op, csid, p.rank), p.stats);
      AddTaskTime(p, xs);
    }

    method EnterNext(p: Input, csid: int, ghost xs: seq<Input>)
      requires CacheOk(xs + [p]) && Says(xs) && 0 <= p.rank < size
      requires Site(p.op, csid, -1) == SiteOf(IdsAfter(start, xs), p, false)
      requires |GroupAt(GroupsOf(start, xs, false), Site(p.op, csid, -1))| < size
      modifies this`sitesByRank, this`totals, sites`rows, sites`view, sites`arrays, sites.arrays, taskTime
      ensures fresh(sites.arrays - old(sites.arrays)) && CacheOk(xs + [p]) && Says(xs + [p])
    {
      InsertedNext(start, xs, p, false);
      InsertedNext(start, xs, p, true);
      AddShare(base, xs, p);
      Enter(p, csid, GroupsOf(start, xs, false), xs);
    }

    /** Gives the record its id. There is a free slot in its row. */
    method GiveId(r: Rec, ghost xs: seq<Input>) returns (csid: int)
      requires CacheOk(xs) && |r.site.pc| == cache.depth
      requires Fits(xs + [InputFor(r)], size)
      modifies cache
      ensures CacheOk(xs + [InputFor(r)])
      ensures Site(r.site.op, csid, -1) == SiteOf(IdsAfter(start, xs), InputFor(r), false)
      ensures |GroupAt(GroupsOf(start, xs, false), Site(r.site.op, csid, -1))| < size && 0 <= r.site.rank < size
    {
      ghost var p := InputFor(r);
      assert (xs + [p])[|xs|] == p;
      InsertedNext(start, xs, p, false);
      KindsNext(xs, r, cache.stackless, Sources(cache.loc, doLookup));
      RoomForOneMore(start, xs, p, cache.stackless, size);
      csid := cache.QuerySrc(r.site.op, r.site.pc, doLookup);
    }

    method Identify(r: Rec, ghost xs: seq<Input>) returns (csid: int)
      requires Says(xs) && CacheOk(xs) && |r.site.pc| == cache.depth && Fits(xs + [InputFor(r)], size)
      modifies cache
      ensures Says(xs) && CacheOk(xs + [InputFor(r)])
      ensures Site(r.site.op, csid, -1) == SiteOf(IdsAfter(start, xs), InputFor(r), false)
      ensures |GroupAt(GroupsOf(start, xs, false), Site(r.site.op, csid, -1))| < size && 0 <= r.site.rank < size
    {
      csid := GiveId(r, xs);
    }

    /** `mpiPi_insert_callsite_records` */
    method InsertCallsiteRecord(r: Rec, ghost xs: seq<Input>)
      requires Holds(xs) && |r.site.pc| == cache.depth && Fits(xs + [InputFor(r)], size)
      modifies cache, this`sitesByRank, this`totals, sites`rows, sites`view, sites`arrays, sites.arrays, taskTime
      ensures Holds(xs + [InputFor(r)]) && fresh(sites.arrays - old(sites.arrays))
    {
      var csid := Identify(r, xs);
      EnterNext(InputFor(r), csid, xs);
    }

    method GatherSite(s: Site, p: SoundStats, ghost t: map<Site, SoundStats>, ghost av: seq<Site>)
      requires s in t && t[s] == p && ops == OpRows(OpSums(t, av))
      modifies this`ops
      ensures ops == OpRows(OpSums(t, av + [s]))
    {
      OpSumsNext(t, av, s);
      OpRowsInto(OpSums(t, av), s.op, p);
      if s.op in ops {
        ops := ops[s.op := OpRow(s.op - BASE, Merged(ops[s.op].stats, p))];
      } else {
        ops := ops[s.op := OpRow(s.op - BASE, p)];
      }
    }

    /** Goes through the table of sites, in any order, and merges rows of the same operation. */
    method GatherOps() returns (ghost av: seq<Site>)
      requires sites.Valid()
      modifies this`ops
      ensures Lists(av, StatsOfSummaries(sites.view))
      ensures ops == OpRows(OpSums(StatsOfSummaries(sites.view), av))
    {
      ghost var t := StatsOfSummaries(sites.view);
      av, ops := [], map[];
      var left := sites.rows.Keys;
      while left != {}
        invariant left <= sites.rows.Keys && Listing(av, left, t.Keys)
        invariant ops == OpRows(OpSums(t, av))
        decreases left
      {
        var s :| s in left;
        ListingNext(av, left, t.Keys, s);
        GatherSite(s, sites.rows[s].stats, t, av);
        av, left := av + [s], left - {s};
      }
    }

    /** `mpiPi_insert_MPI_records`: afterwards there is a row for every operation that has records, and
        it is what these records amount to. */
    method InsertMPIRecords(ghost xs: seq<Input>)
      requires Holds(xs)
      modifies this`ops
      ensures Holds(xs)
      ensures forall op :: op in ops <==> Select(xs, OfOp(op)) != []
      ensures forall op <- ops :: ops[op] == OpRow(op - BASE, Sum(Select(xs, OfOp(op))))
    {
      var av := GatherOps();
      assert StatsOfSummaries(sites.view) == SumsOf(start, xs, false);
      OpRowsMean(start, xs, av);
    }

    ghost function Inputs(rs: seq<Rec>): seq<Input> {
      InputsOf(rs, cache.stackless, Sources(cache.loc, doLookup))
    }

    method InsertNext(b: seq<Rec>, ndx: nat, ghost done: seq<Rec>)
      requires ndx < |b| && |b[ndx].site.pc| == cache.depth
      requires Holds(Inputs(done + b[..ndx])) && Fits(Inputs(done + b), size)
      modifies cache, this`sitesByRank, this`totals, sites`rows, sites`view, sites`arrays, sites.arrays, taskTime
      ensures Holds(Inputs(done + b[..ndx + 1])) && fresh(sites.arrays - old(sites.arrays))
    {
      NextFits(done, b, ndx, size, cache.stackless, Sources(cache.loc, doLookup));
      InsertCallsiteRecord(b[ndx], Inputs(done + b[..ndx]));
    }

    /** The records of one rank, after `done`. */
    method InsertBatch(b: seq<Rec>, ghost done: seq<Rec>)
      requires Holds(Inputs(done)) && Fits(Inputs(done + b), size)
      requires forall i :: 0 <= i < |b| ==> |b[i].site.pc| == cache.depth
      modifies cache, this`sitesByRank, this`totals, sites`rows, sites`view, sites`arrays, sites.arrays, taskTime
      ensures Holds(Inputs(done + b)) && fresh(sites.arrays - old(sites.arrays))
    {
      var ndx := 0;
      assert done + b[..0] == done;
      while ndx < |b|
        invariant 0 <= ndx <= |b| && Holds(Inputs(done + b[..ndx]))
        invariant fresh(sites.arrays - old(sites.arrays))
      {
        InsertNext(b, ndx, done);
        ndx := ndx + 1;
      }
      assert b[..ndx] == b;
    }

    method InsertNthBatch(bs: seq<seq<Rec>>, ghost ranks: seq<int>, i: nat)
      requires Batches(bs, ranks, size, cache.depth, cache.stackless) && i < |bs|
      requires Holds(Inputs(Concat(bs[..i])))
      modifies cache, this`sitesByRank, this`totals, sites`rows, sites`view, sites`arrays, sites.arrays, taskTime
      ensures Holds(Inputs(Concat(bs[..i + 1]))) && fresh(sites.arrays - old(sites.arrays))
    {
      BatchOfBatches(bs, ranks, i, size, cache.depth, cache.stackless, Sources(cache.loc, doLookup));
      InsertBatch(bs[i], Concat(bs[..i]));
    }

    method InsertRemote(bs: seq<seq<Rec>>, ghost ranks: seq<int>)
      requires Batches(bs, ranks, size, cache.depth, cache.stackless) && bs != []
      requires Holds(Inputs(Concat(bs[..1])))
      modifies cache, this`sitesByRank, this`totals, sites`rows, sites`view, sites`arrays, sites.arrays, taskTime
      ensures Holds(Inputs(Concat(bs))) && fresh(sites.arrays - old(sites.arrays))
    {
      var i := 1;
      while i < |bs|
        invariant 1 <= i <= |bs| && Holds(Inputs(Concat(bs[..i])))
        invariant fresh(sites.arrays - old(sites.arrays))
      {
        InsertNthBatch(bs, ranks, i);
        i := i + 1;
      }
      assert bs[..i] == bs;
    }

    /** The collector's part of `mpiPi_mergeResults`: its own records, then the batches of the other
        ranks as they arrive. */
    method MergeResults(local: seq<Rec>, remote: seq<seq<Rec>>, ghost ranks: seq<int>)
      requires Holds([]) && Batches([local] + remote, ranks, size, cache.depth, cache.stackless)
      modifies cache, this`sitesByRank, this`totals, sites`rows, sites`view, sites`arrays, sites.arrays, taskTime
      ensures Holds(Inputs(Concat([local] + remote)))
    {
      var bs := [local] + remote;
      InsertNthBatch(bs, ranks, 0);
      InsertRemote(bs, ranks);
    }
  }
}

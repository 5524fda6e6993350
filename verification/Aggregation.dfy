/** What the collector's tables hold once all records are in: the same grand total in every table,
    never more times at a site than ranks, and all of it in whatever order the records came. */
module Aggregation {
  import opened CallsiteStats
  import opened Folds
  import opened Grouping
  import opened Sequences
  import opened SourceIds

  function StatsOf(p: Input): SoundStats {
    p.stats
  }

  /** Everything some records amount to. */
  function Sum(xs: seq<Input>): SoundStats {
    Fold<Input, SoundStats>(xs, StatsOf, Merged, Zero)
  }

  function Elapsed(p: Input): real {
    p.stats.time
  }

  /** The `siteData` of a group. */
  function Times(xs: seq<Input>): seq<real> {
    Map(xs, Elapsed)
  }

  lemma TimesMean(xs: seq<Input>, i: nat)
    requires i < |xs|
    ensures |Times(xs)| == |xs| && Times(xs)[i] == xs[i].stats.time
  {
    assert Times(xs)[i] == Elapsed(xs[i]);
  }

  /** The times of a site add up to its time. */
  lemma {:induction false} TimesAddUp(xs: seq<Input>)
    ensures SumOf(Times(xs)) == Sum(xs).time
    decreases |xs|
  {
    if xs != [] {
      var n := |xs| - 1;
      TimesAddUp(xs[..n]);
      assert xs[..n] + [xs[n]] == xs;
      MapNext(xs[..n], xs[n], Elapsed);
      assert Times(xs)[..n] == Times(xs[..n]);
    }
  }

  /** The table of sites, with all records of a group merged. */
  function Sums(m: Groups): map<Site, SoundStats> {
    map s <- m :: Sum(m[s])
  }

  ghost function GrandTotal<K(!new)>(t: map<K, SoundStats>): SoundStats {
    Total<K, SoundStats>(t, Merged, Zero)
  }

  // ---------- Totals over all records ----------

  datatype Totals = Totals(time: real, size: real, io: real, rma: real,
                           callsites: int, messages: int, sent: int)

  const NoTotals := Totals(0.0, 0.0, 0.0, 0.0, 0, 0, 0)

  /** What one record adds to the totals. */
  function Share(p: Input): Totals {
    var s := p.stats;
    Totals(s.time, s.dataSent, s.io, s.rma, if s.time > 0.0 then 1 else 0,
           if s.dataSent > 0.0 then s.messages else 0, if s.dataSent > 0.0 then s.count else 0)
  }

  function Add(t: Totals, u: Totals): Totals {
    Totals(t.time + u.time, t.size + u.size, t.io + u.io, t.rma + u.rma,
           t.callsites + u.callsites, t.messages + u.messages, t.sent + u.sent)
  }

  function TotalsOf(xs: seq<Input>): Totals {
    Fold(xs, Share, Add, NoTotals)
  }

  lemma AddAnyOrder()
    ensures AnyOrder(Add)
  {
  }

  lemma {:induction false} TotalsAreSums(xs: seq<Input>)
    ensures var t, s := TotalsOf(xs), Sum(xs);
            t.time == s.time && t.size == s.dataSent && t.io == s.io && t.rma == s.rma
    decreases |xs|
  {
    if xs != [] {
      TotalsAreSums(xs[..|xs| - 1]);
    }
  }

  function TookTime(p: Input): bool {
    p.stats.time > 0.0
  }

  function SentData(p: Input): bool {
    p.stats.dataSent > 0.0
  }

  /** The counts: the records that took time, and the messages and calls of those that sent data. */
  lemma {:induction false} CountsAreSelections(xs: seq<Input>)
    ensures var t, sent := TotalsOf(xs), Sum(Filter(xs, SentData));
            t.callsites == |Filter(xs, TookTime)| && t.messages == sent.messages && t.sent == sent.count
    ensures forall p :: (TookTime(p) <==> p.stats.time > 0.0) && (SentData(p) <==> p.stats.dataSent > 0.0)
    decreases |xs|
  {
    if xs != [] {
      var n := |xs| - 1;
      CountsAreSelections(xs[..n]);
      assert xs[..n] + [xs[n]] == xs;
      FilterNext(xs[..n], xs[n], SentData);
      SumNext(Filter(xs[..n], SentData), xs[n]);
    }
  }

  // ---------- Time by rank ----------

  /** The time of one rank. */
  function TaskTime(xs: seq<Input>, rank: int): real {
    Sum(Select(xs, OfRank(rank))).time
  }

  function TaskTimes(xs: seq<Input>, size: nat): seq<real> {
    seq(size, r requires 0 <= r < size => TaskTime(xs, r))
  }

  function SumOf(s: seq<real>): real {
    if s == [] then 0.0 else SumOf(s[..|s| - 1]) + s[|s| - 1]
  }

  ghost predicate RanksBelow(xs: seq<Input>, size: nat) {
    forall i :: 0 <= i < |xs| ==> 0 <= xs[i].rank < size
  }

  lemma {:induction false} SumOfUpdate(s: seq<real>, i: nat, x: real)
    requires i < |s|
    ensures SumOf(s[i := s[i] + x]) == SumOf(s) + x
  {
    var n := |s| - 1;
    if i == n {
      assert s[i := s[i] + x][..n] == s[..n];
    } else {
      SumOfUpdate(s[..n], i, x);
      assert s[i := s[i] + x][..n] == s[..n][i := s[i] + x];
    }
  }

  lemma {:induction false} SumOfZeros(s: seq<real>)
    requires forall i :: 0 <= i < |s| ==> s[i] == 0.0
    ensures SumOf(s) == 0.0
  {
    if s != [] {
      SumOfZeros(s[..|s| - 1]);
    }
  }

  lemma SumNext(xs: seq<Input>, p: Input)
    ensures Sum(xs + [p]) == Merged(Sum(xs), p.stats)
  {
    FoldNext<Input, SoundStats>(xs, p, StatsOf, Merged, Zero);
  }

  lemma TaskTimeNext(xs: seq<Input>, p: Input, rank: int)
    ensures TaskTime(xs + [p], rank) == if p.rank == rank then TaskTime(xs, rank) + p.stats.time else TaskTime(xs, rank)
  {
    FilterNext(xs, p, Test(OfRank(rank)));
    if p.rank == rank {
      SumNext(Select(xs, OfRank(rank)), p);
    }
  }

  lemma TaskTimesNext(xs: seq<Input>, p: Input, size: nat)
    requires 0 <= p.rank < size
    ensures var t := TaskTimes(xs, size);
            TaskTimes(xs + [p], size) == t[p.rank := t[p.rank] + p.stats.time]
  {
    var t, u := TaskTimes(xs, size), TaskTimes(xs + [p], size);
    var v := t[p.rank := t[p.rank] + p.stats.time];
    forall r | 0 <= r < size ensures u[r] == v[r] {
      TaskTimeNext(xs, p, r);
    }
    assert u == v;
  }

  lemma TaskTimesSum(xs: seq<Input>, p: Input, size: nat)
    requires 0 <= p.rank < size
    ensures SumOf(TaskTimes(xs + [p], size)) == SumOf(TaskTimes(xs, size)) + p.stats.time
  {
    TaskTimesNext(xs, p, size);
    SumOfUpdate(TaskTimes(xs, size), p.rank, p.stats.time);
  }

  /** The times of the ranks add up to the time of all. */
  lemma {:induction false} TaskTimesAddUp(xs: seq<Input>, size: nat)
    requires RanksBelow(xs, size)
    ensures SumOf(TaskTimes(xs, size)) == TotalsOf(xs).time
    decreases |xs|
  {
    if xs == [] {
      SumOfZeros(TaskTimes(xs, size));
    } else {
      var n := |xs| - 1;
      var p := xs[n];
      TaskTimesAddUp(xs[..n], size);
      TaskTimesSum(xs[..n], p, size);
      assert xs[..n] + [p] == xs;
    }
  }

  // ---------- The tables of sites ----------

  /** A new record is accumulated at its site. */
  lemma SumsInsert(ids: Ids, m: Groups, p: Input, byRank: bool)
    ensures Sums(GroupInsert(ids, m, p, byRank)) ==
            Into<Site, SoundStats>(Sums(m), SiteOf(ids, p, byRank), p.stats, Merged, Zero)
  {
    var s := SiteOf(ids, p, byRank);
    SumNext(GroupAt(m, s), p);
    assert Sum([]) == Zero;
  }

  function SumsOf(ids: Ids, xs: seq<Input>, byRank: bool): map<Site, SoundStats> {
    Sums(GroupsOf(ids, xs, byRank))
  }

  lemma {:induction false} SitesTotal(ids: Ids, xs: seq<Input>, byRank: bool)
    ensures GrandTotal(SumsOf(ids, xs, byRank)) == Sum(xs)
    decreases |xs|
  {
    if xs == [] {
      assert SumsOf(ids, xs, byRank) == map[];
    } else {
      var n := |xs| - 1;
      var ids', m := IdsAfter(ids, xs[..n]), GroupsOf(ids, xs[..n], byRank);
      SitesTotal(ids, xs[..n], byRank);
      SumsInsert(ids', m, xs[n], byRank);
      MergedIsMonoid();
      TotalInto<Site, SoundStats>(Sums(m), SiteOf(ids', xs[n], byRank), xs[n].stats, Merged, Zero);
    }
  }

  // ---------- The table of operations ----------

  function OpOf(s: Site): int {
    s.op
  }

  function SumAt(t: map<Site, SoundStats>): Site -> SoundStats {
    s => Held(t, s, Zero)
  }

  /** The table made by going through the gathered sites of `t`. */
  function OpSums(t: map<Site, SoundStats>, av: seq<Site>): map<int, SoundStats> {
    IntoAll<Site, int, SoundStats>(av, OpOf, SumAt(t), Merged, Zero)
  }

  /** `av` lists the sites of a table, each once, in any order. */
  ghost predicate Lists(av: seq<Site>, t: map<Site, SoundStats>) {
    Distinct(av) && forall s :: s in t <==> s in av
  }

  lemma OpsTotal(t: map<Site, SoundStats>, av: seq<Site>)
    requires Lists(av, t)
    ensures GrandTotal(OpSums(t, av)) == GrandTotal(t)
  {
    MergedIsMonoid();
    IntoAllTotal<Site, int, SoundStats>(av, OpOf, SumAt(t), Merged, Zero);
    TotalInOrder<Site, SoundStats>(t, av, SumAt(t), Merged, Zero);
  }

  function OnlyOp(t: map<Site, SoundStats>, op: int): map<Site, SoundStats> {
    map s | s in t && s.op == op :: t[s]
  }

  /** The listed sites of one operation. */
  lemma OpSites(t: map<Site, SoundStats>, av: seq<Site>, op: int)
    requires Lists(av, t)
    ensures Lists(Filter(av, Under(OpOf, op)), OnlyOp(t, op))
  {
    FilterDistinct(av, Under(OpOf, op));
    forall s ensures s in OnlyOp(t, op) <==> s in Filter(av, Under(OpOf, op)) {
      FilterMembers(av, Under(OpOf, op), s);
      assert Under(OpOf, op)(s) == (OpOf(s) == op);
    }
  }

  lemma ListTotal(t: map<Site, SoundStats>, all: map<Site, SoundStats>, av: seq<Site>)
    requires Lists(av, t) && forall s :: s in t ==> s in all && t[s] == all[s]
    ensures Fold<Site, SoundStats>(av, SumAt(all), Merged, Zero) == GrandTotal(t)
    ensures av != [] <==> t != map[]
  {
    MergedIsMonoid();
    TotalInOrder<Site, SoundStats>(t, av, SumAt(all), Merged, Zero);
    assert av != [] ==> av[0] in t;
  }

  /** For each operation, the entry is what the sites of that operation amount to. */
  lemma OpSumsAt(t: map<Site, SoundStats>, av: seq<Site>, op: int)
    requires Lists(av, t)
    ensures Held(OpSums(t, av), op, Zero) == GrandTotal(OnlyOp(t, op))
    ensures op in OpSums(t, av) <==> OnlyOp(t, op) != map[]
  {
    IntoAllAt<Site, int, SoundStats>(av, OpOf, SumAt(t), Merged, Zero, op);
    OpSites(t, av, op);
    ListTotal(OnlyOp(t, op), t, Filter(av, Under(OpOf, op)));
  }

  lemma OnlyOpInto(t: map<Site, SoundStats>, s: Site, v: SoundStats, op: int)
    ensures GrandTotal(OnlyOp(Into<Site, SoundStats>(t, s, v, Merged, Zero), op)) ==
            if s.op == op then Merged(GrandTotal(OnlyOp(t, op)), v) else GrandTotal(OnlyOp(t, op))
  {
    var t' := Into<Site, SoundStats>(t, s, v, Merged, Zero);
    if s.op == op {
      assert OnlyOp(t', op) == Into<Site, SoundStats>(OnlyOp(t, op), s, v, Merged, Zero);
      MergedIsMonoid();
      TotalInto<Site, SoundStats>(OnlyOp(t, op), s, v, Merged, Zero);
    } else {
      assert OnlyOp(t', op) == OnlyOp(t, op);
    }
  }

  lemma SelectNext(xs: seq<Input>, p: Input, op: int)
    ensures Sum(Select(xs + [p], OfOp(op))) ==
            if p.op == op then Merged(Sum(Select(xs, OfOp(op))), p.stats) else Sum(Select(xs, OfOp(op)))
  {
    FilterNext(xs, p, Test(OfOp(op)));
    SumNext(Select(xs, OfOp(op)), p);
  }

  /** The sites of one operation amount to the records of that operation. */
  lemma {:induction false} OpTotal(ids: Ids, xs: seq<Input>, byRank: bool, op: int)
    ensures GrandTotal(OnlyOp(SumsOf(ids, xs, byRank), op)) == Sum(Select(xs, OfOp(op)))
    decreases |xs|
  {
    if xs == [] {
      assert OnlyOp(SumsOf(ids, xs, byRank), op) == map[];
    } else {
      var n := |xs| - 1;
      var ids', p := IdsAfter(ids, xs[..n]), xs[n];
      OpTotal(ids, xs[..n], byRank, op);
      SumsInsert(ids', GroupsOf(ids, xs[..n], byRank), p, byRank);
      OnlyOpInto(SumsOf(ids, xs[..n], byRank), SiteOf(ids', p, byRank), p.stats, op);
      SelectNext(xs[..n], p, op);
      assert xs[..n] + [p] == xs;
    }
  }

  /** In one report the grand totals of all tables agree with what the records amount to: the table of
      sites by rank, the table of sites, and the table of operations. */
  lemma {:induction false} SameTotals(ids: Ids, xs: seq<Input>, av: seq<Site>)
    requires Lists(av, SumsOf(ids, xs, false))
    ensures GrandTotal(SumsOf(ids, xs, true)) == Sum(xs)
    ensures GrandTotal(SumsOf(ids, xs, false)) == Sum(xs)
    ensures GrandTotal(OpSums(SumsOf(ids, xs, false), av)) == Sum(xs)
  {
    SitesTotal(ids, xs, true);
    SitesTotal(ids, xs, false);
    OpsTotal(SumsOf(ids, xs, false), av);
  }

  /** In particular the times agree, also with the global time and with the times of the ranks. */
  lemma {:induction false} TimeIsConserved(ids: Ids, xs: seq<Input>, av: seq<Site>, size: nat)
    requires Lists(av, SumsOf(ids, xs, false)) && RanksBelow(xs, size)
    ensures TotalsOf(xs).time == SumOf(TaskTimes(xs, size)) == Sum(xs).time
    ensures GrandTotal(SumsOf(ids, xs, true)).time == GrandTotal(SumsOf(ids, xs, false)).time == Sum(xs).time
    ensures GrandTotal(OpSums(SumsOf(ids, xs, false), av)).time == Sum(xs).time
  {
    SameTotals(ids, xs, av);
    TaskTimesAddUp(xs, size);
    TotalsAreSums(xs);
  }

  /** An operation has an entry exactly when it has records, and the entry is what they amount to. */
  lemma OpTableMeans(ids: Ids, xs: seq<Input>, av: seq<Site>, op: int)
    requires Lists(av, SumsOf(ids, xs, false))
    ensures Held(OpSums(SumsOf(ids, xs, false), av), op, Zero) == Sum(Select(xs, OfOp(op)))
    ensures op in OpSums(SumsOf(ids, xs, false), av) <==> Select(xs, OfOp(op)) != []
  {
    var t := SumsOf(ids, xs, false);
    OpSumsAt(t, av, op);
    OpTotal(ids, xs, false, op);
    OpSitesExist(ids, xs, op);
  }

  lemma {:induction false} OpSitesExist(ids: Ids, xs: seq<Input>, op: int)
    ensures OnlyOp(SumsOf(ids, xs, false), op) != map[] <==> Select(xs, OfOp(op)) != []
    decreases |xs|
  {
    if xs != [] {
      var n := |xs| - 1;
      var ids', p := IdsAfter(ids, xs[..n]), xs[n];
      OpSitesExist(ids, xs[..n], op);
      SumsInsert(ids', GroupsOf(ids, xs[..n], false), p, false);
      OnlyOpGrows(SumsOf(ids, xs[..n], false), SiteOf(ids', p, false), p.stats, op);
    }
  }

  lemma OnlyOpGrows(t: map<Site, SoundStats>, s: Site, v: SoundStats, op: int)
    ensures OnlyOp(Into<Site, SoundStats>(t, s, v, Merged, Zero), op) != map[] <==> s.op == op || OnlyOp(t, op) != map[]
  {
    var t' := Into<Site, SoundStats>(t, s, v, Merged, Zero);
    assert s in OnlyOp(t', op) <==> s.op == op;
    assert forall k :: k in OnlyOp(t', op) && k != s ==> k in OnlyOp(t, op);
    assert forall k :: k in OnlyOp(t, op) ==> k in OnlyOp(t', op);
  }

  // ---------- Order of arrival ----------

  lemma SumPermutation(xs: seq<Input>, ys: seq<Input>)
    requires multiset(xs) == multiset(ys)
    ensures Sum(xs) == Sum(ys)
  {
    MergedIsMonoid();
    FoldPermutation<Input, SoundStats>(xs, ys, StatsOf, Merged, Zero);
  }

  lemma SelectPermutation(xs: seq<Input>, ys: seq<Input>, sel: Sel)
    requires multiset(xs) == multiset(ys)
    ensures multiset(Select(xs, sel)) == multiset(Select(ys, sel)) && Sum(Select(xs, sel)) == Sum(Select(ys, sel))
    ensures multiset(Times(Select(xs, sel))) == multiset(Times(Select(ys, sel)))
    ensures Select(xs, sel) == [] <==> Select(ys, sel) == []
  {
    FilterPermutation(xs, ys, Test(sel));
    SumPermutation(Select(xs, sel), Select(ys, sel));
    MapPermutation(Select(xs, sel), Select(ys, sel), Elapsed);
    SameLength(Select(xs, sel), Select(ys, sel));
  }

  /** The totals, and the times of the ranks, do not depend on the order. */
  lemma TotalsInAnyOrder(xs: seq<Input>, ys: seq<Input>, size: nat)
    requires multiset(xs) == multiset(ys)
    ensures TotalsOf(xs) == TotalsOf(ys) && TaskTimes(xs, size) == TaskTimes(ys, size)
  {
    AddAnyOrder();
    FoldPermutation(xs, ys, Share, Add, NoTotals);
    forall r | 0 <= r < size ensures TaskTime(xs, r) == TaskTime(ys, r) {
      SelectPermutation(xs, ys, OfRank(r));
    }
  }

  lemma {:induction false} KeysAfter(ids: Ids, xs: seq<Input>, key: IdKey)
    ensures key in IdsAfter(ids, xs).cache <==> key in ids.cache || exists i :: 0 <= i < |xs| && xs[i].key == key
    decreases |xs|
  {
    if xs != [] {
      var n := |xs| - 1;
      KeysAfter(ids, xs[..n], key);
      assert forall i :: 0 <= i < n ==> xs[..n][i] == xs[i];
    }
  }

  lemma SameKeys(ids: Ids, xs: seq<Input>, ys: seq<Input>)
    requires multiset(xs) == multiset(ys)
    ensures IdsAfter(ids, xs).cache.Keys == IdsAfter(ids, ys).cache.Keys
  {
    forall key ensures key in IdsAfter(ids, xs).cache <==> key in IdsAfter(ids, ys).cache {
      KeysAfter(ids, xs, key);
      KeysAfter(ids, ys, key);
      forall i | 0 <= i < |xs| ensures xs[i] in ys { assert xs[i] in multiset(xs); }
      forall i | 0 <= i < |ys| ensures ys[i] in xs { assert ys[i] in multiset(ys); }
    }
  }

  /** The site of an operation and a key once all records are in. */
  function SiteOfKey(ids: Ids, op: int, key: IdKey, rank: int, byRank: bool): Site
    requires key in ids.cache
  {
    SiteFor(op, ids.cache[key], rank, byRank)
  }

  /** Two tables agree up to the ids: the one-to-one renaming that takes the id of a key in one report
      to its id in the other takes each site to a site with the same sums and, up to order, the same
      times. */
  ghost predicate AgreeUpToIds(ids: Ids, m: Groups, ids': Ids, m': Groups, byRank: bool) {
    && OneToOne(ids) && OneToOne(ids') && ids.cache.Keys == ids'.cache.Keys
    && (forall s :: s in m ==> exists key :: key in ids.cache && ids.cache[key] == s.csid)
    && (forall s :: s in m' ==> exists key :: key in ids'.cache && ids'.cache[key] == s.csid)
    && forall op, key, rank :: key in ids.cache ==> AgreeAt(ids, m, ids', m', byRank, op, key, rank)
  }

  ghost predicate AgreeAt(ids: Ids, m: Groups, ids': Ids, m': Groups, byRank: bool, op: int, key: IdKey, rank: int)
    requires key in ids.cache && key in ids'.cache
  {
    var s, s' := SiteOfKey(ids, op, key, rank, byRank), SiteOfKey(ids', op, key, rank, byRank);
    && (s in m <==> s' in m')
    && (s in m && s' in m' ==> Sums(m)[s] == Sums(m')[s'] && multiset(Times(m[s])) == multiset(Times(m'[s'])))
  }

  lemma AnyOrderAt(ids: Ids, m: Groups, xs: seq<Input>, ids': Ids, m': Groups, ys: seq<Input>,
                   byRank: bool, op: int, key: IdKey, rank: int)
    requires multiset(xs) == multiset(ys) && key in ids.cache && key in ids'.cache
    requires GroupOk(ids, m, xs, byRank, op, key, rank) && GroupOk(ids', m', ys, byRank, op, key, rank)
    ensures AgreeAt(ids, m, ids', m', byRank, op, key, rank)
  {
    SelectPermutation(xs, ys, SelFor(op, key, rank, byRank));
  }

  /** The tables of sites depend on the order of arrival only in which ids are given. */
  lemma SitesInAnyOrder(ids: Ids, xs: seq<Input>, ys: seq<Input>, byRank: bool, stackless: bool)
    requires IdsOk(ids) && OneKind(ids, stackless) && KeysOfKind(xs, stackless) && multiset(xs) == multiset(ys)
    ensures AgreeUpToIds(IdsAfter(ids, xs), GroupsOf(ids, xs, byRank),
                         IdsAfter(ids, ys), GroupsOf(ids, ys, byRank), byRank)
  {
    var ix, iy := IdsAfter(ids, xs), IdsAfter(ids, ys);
    var mx, my := GroupsOf(ids, xs, byRank), GroupsOf(ids, ys, byRank);
    forall i | 0 <= i < |ys| ensures ys[i].key.ById? == stackless {
      assert ys[i] in multiset(ys);
    }
    GroupsAreSelections(ids, xs, byRank, stackless);
    GroupsAreSelections(ids, ys, byRank, stackless);
    SameKeys(ids, xs, ys);
    forall op, key, rank | key in ix.cache ensures AgreeAt(ix, mx, iy, my, byRank, op, key, rank) {
      assert key in ix.cache.Keys;
      assert GroupOk(ix, mx, xs, byRank, op, key, rank) && GroupOk(iy, my, ys, byRank, op, key, rank);
      AnyOrderAt(ix, mx, xs, iy, my, ys, byRank, op, key, rank);
    }
  }

  /** The table of operations does not depend on the order of arrival at all, nor on the order in which
      the sites are gathered. */
  lemma OpsInAnyOrder(ids: Ids, xs: seq<Input>, ys: seq<Input>, av: seq<Site>, bv: seq<Site>)
    requires Lists(av, SumsOf(ids, xs, false)) && Lists(bv, SumsOf(ids, ys, false)) && multiset(xs) == multiset(ys)
    ensures OpSums(SumsOf(ids, xs, false), av) == OpSums(SumsOf(ids, ys, false), bv)
  {
    var tx, ty := OpSums(SumsOf(ids, xs, false), av), OpSums(SumsOf(ids, ys, false), bv);
    forall op ensures (op in tx <==> op in ty) && Held(tx, op, Zero) == Held(ty, op, Zero) {
      OpTableMeans(ids, xs, av, op);
      OpTableMeans(ids, ys, bv, op);
      SelectPermutation(xs, ys, OfOp(op));
    }
    forall op | op in tx ensures tx[op] == ty[op] {
      assert Held(tx, op, Zero) == Held(ty, op, Zero);
    }
  }

  // ---------- Room for the times ----------

  /** No rank brings two records of the same operation and stack. */
  ghost predicate OncePerRank(xs: seq<Input>) {
    forall i, j :: 0 <= i < j < |xs| ==> xs[i].op != xs[j].op || xs[i].rank != xs[j].rank || xs[i].key != xs[j].key
  }

  lemma {:induction false} SitesHaveRoom(xs: seq<Input>, op: int, key: IdKey, size: nat)
    requires OncePerRank(xs) && RanksBelow(xs, size)
    ensures |Select(xs, OfSite(op, key))| <= size
  {
    var g := Select(xs, OfSite(op, key));
    FilterDistinct(xs, Test(OfSite(op, key)));
    var ranks := seq(|g|, i requires 0 <= i < |g| => g[i].rank);
    forall i | 0 <= i < |g| ensures g[i] in xs && g[i].op == op && g[i].key == key && 0 <= g[i].rank < size {
      FilterMembers(xs, Test(OfSite(op, key)), g[i]);
    }
    forall i, j | 0 <= i < j < |g| ensures ranks[i] != ranks[j] {
      assert g[i] in xs && g[j] in xs && g[i] != g[j];
    }
    DistinctFits(ranks, Below(size));
  }
}

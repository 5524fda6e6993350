/** From the events of all ranks to the report: recording, merging, sending and collecting together. */
module Reports {
  import opened Aggregation
  import opened CallsiteStats
  import opened Collector
  import opened Folds
  import opened Grouping
  import opened RankStats
  import opened Sequences
  import opened SourceIds
  import opened ThreadStats
  import opened Trails

  // ---------- What events amount to ----------

  /** One record into which all events go. */
  function Amount(xs: seq<Entry>, threshold: int): Stats
    decreases |xs|
  {
    if xs == [] then Zero else Update(Amount(xs[..|xs| - 1], threshold), xs[|xs| - 1].event, threshold)
  }

  lemma {:induction false} AmountSound(xs: seq<Entry>, threshold: int)
    requires Timed(xs)
    ensures Sound(Amount(xs, threshold))
    decreases |xs|
  {
    if xs != [] {
      var n := |xs| - 1;
      AmountSound(xs[..n], threshold);
      UpdateSound(Amount(xs[..n], threshold), xs[n].event, threshold);
    }
  }

  lemma AmountNext(xs: seq<Entry>, x: Entry, threshold: int)
    ensures Amount(xs + [x], threshold) == Update(Amount(xs, threshold), x.event, threshold)
  {
    assert (xs + [x])[..|xs|] == xs;
  }

  /** The same events, all under one key. */
  function Rekeyed(xs: seq<Entry>, k: SiteKey): seq<Entry> {
    seq(|xs|, i requires 0 <= i < |xs| => Entry(k, xs[i].event))
  }

  lemma {:induction false} AmountRecorded(xs: seq<Entry>, k: SiteKey, threshold: int)
    ensures At(RecordAll(map[], Rekeyed(xs, k), threshold), k) == Amount(xs, threshold)
    ensures CountOf(Rekeyed(xs, k), k) == |xs|
    decreases |xs|
  {
    if xs != [] {
      var n := |xs| - 1;
      AmountRecorded(xs[..n], k, threshold);
      assert Rekeyed(xs, k)[..n] == Rekeyed(xs[..n], k);
    }
  }

  /** Their number and sums, and the extremes among them. */
  lemma AmountMeans(xs: seq<Entry>, k: SiteKey, threshold: int)
    ensures var a, ys := Amount(xs, threshold), Rekeyed(xs, k);
            && a.count == |xs| && SumsAre(a, ys, k, threshold)
            && IsMax(ys, k, DurOf, a.maxDur) && IsMin(ys, k, DurOf, a.minDur)
            && IsMax(ys, k, SentOf, a.maxDataSent) && IsMin(ys, k, SentOf, a.minDataSent)
            && IsMax(ys, k, IoOf, a.maxIO) && IsMin(ys, k, IoOf, a.minIO)
  {
    AmountRecorded(xs, k, threshold);
    RecordAllSums(Rekeyed(xs, k), k, threshold);
    RecordAllExtremes(Rekeyed(xs, k), k, threshold);
  }

  // ---------- What tables amount to ----------

  type SoundTableOf = map<SiteKey, SoundStats>

  /** The records of a table that a selection is about. */
  function Chosen(t: Table, q: SiteKey -> bool): SoundTableOf
    requires forall k <- t :: Sound(t[k])
  {
    map k | k in t && q(k) :: t[k]
  }

  function KeyTest(q: SiteKey -> bool): Entry -> bool {
    (x: Entry) => q(x.key)
  }

  ghost function ChosenTotal(t: Table, q: SiteKey -> bool): SoundStats
    requires SoundTable(t)
  {
    Total<SiteKey, SoundStats>(Chosen(t, q), Merged, Zero)
  }

  /** Recording an event is merging in a record of this event alone. */
  lemma RecordIsInto(s: Stats, e: Event, threshold: int)
    requires Sound(s) && e.dur >= 0.0
    ensures Sound(Update(Zero, e, threshold)) && Update(s, e, threshold) == Merge(s, Update(Zero, e, threshold))
  {
    UpdateSound(Zero, e, threshold);
    UpdateMerge(s, Zero, e, threshold);
    MergeLaws(s, Zero, Zero);
  }

  lemma ChosenRecord(t: Table, x: Entry, q: SiteKey -> bool, threshold: int)
    requires SoundTable(t) && x.event.dur >= 0.0
    ensures SoundTable(Record(t, x, threshold)) && Sound(Update(Zero, x.event, threshold))
    ensures Chosen(Record(t, x, threshold), q) ==
            if q(x.key) then
              Into<SiteKey, SoundStats>(Chosen(t, q), x.key, Update(Zero, x.event, threshold), Merged, Zero)
            else Chosen(t, q)
  {
    RecordIsInto(At(t, x.key), x.event, threshold);
    UpdateSound(At(t, x.key), x.event, threshold);
  }

  /** The chosen records of a table amount to the events under their keys. */
  lemma {:induction false} ChosenMeans(xs: seq<Entry>, q: SiteKey -> bool, threshold: int)
    requires Timed(xs)
    ensures SoundTable(RecordAll(map[], xs, threshold))
    ensures ChosenTotal(RecordAll(map[], xs, threshold), q) == Amount(Filter(xs, KeyTest(q)), threshold)
    ensures Chosen(RecordAll(map[], xs, threshold), q) == map[] <==> Filter(xs, KeyTest(q)) == []
    decreases |xs|
  {
    RecordAllSound(map[], xs, threshold);
    if xs != [] {
      var n := |xs| - 1;
      var t, x := RecordAll(map[], xs[..n], threshold), xs[n];
      var own := Filter(xs[..n], KeyTest(q));
      ChosenMeans(xs[..n], q, threshold);
      ChosenRecord(t, x, q, threshold);
      assert KeyTest(q)(x) == q(x.key);
      if q(x.key) {
        MergedIsMonoid();
        TotalInto<SiteKey, SoundStats>(Chosen(t, q), x.key, Update(Zero, x.event, threshold), Merged, Zero);
        RecordIsInto(Amount(own, threshold), x.event, threshold);
        assert x.key in Chosen(RecordAll(map[], xs, threshold), q);
        assert Filter(xs, KeyTest(q)) == own + [x];
        AmountNext(own, x, threshold);
      } else {
        assert Filter(xs, KeyTest(q)) == own;
        assert Chosen(RecordAll(map[], xs, threshold), q) == Chosen(t, q);
      }
    }
  }

  // ---------- What batches amount to ----------

  /** The table that some records are a listing of. */
  function TableOf(b: seq<Rec>): Table
    decreases |b|
  {
    if b == [] then map[] else TableOf(b[..|b| - 1])[b[|b| - 1].site := b[|b| - 1].stats]
  }

  ghost predicate SitesDiffer(b: seq<Rec>) {
    forall i, j :: 0 <= i < j < |b| ==> b[i].site != b[j].site
  }

  /** The records `b` list the table `t`, each once. */
  ghost predicate IsListing(b: seq<Rec>, t: Table) {
    SitesDiffer(b) && TableOf(b) == t
  }

  lemma {:induction false} TableKeys(b: seq<Rec>, k: SiteKey)
    ensures k in TableOf(b) <==> exists i :: 0 <= i < |b| && b[i].site == k
    ensures SoundTable(TableOf(b))
    decreases |b|
  {
    if b != [] {
      var n := |b| - 1;
      TableKeys(b[..n], k);
      assert forall i :: 0 <= i < n ==> b[..n][i] == b[i];
    }
  }

  /** Whether a selection of inputs is about a key. */
  function SelTest(sel: Sel, stackless: bool, source: int -> Source): SiteKey -> bool {
    (k: SiteKey) => Matches(sel, InputOf(Rec(k, Zero), stackless, source))
  }

  /** Whether it is about an event. */
  function EventTest(sel: Sel, stackless: bool, source: int -> Source): Entry -> bool {
    KeyTest(SelTest(sel, stackless, source))
  }

  /** Which events a selection is about, in terms of their keys. */
  lemma EventTestMeans(x: Entry, op: int, rank: int, pc: seq<int>, stackless: bool, source: int -> Source)
    requires |pc| == |x.key.pc|
    ensures EventTest(All, stackless, source)(x)
    ensures EventTest(OfOp(op), stackless, source)(x) <==> x.key.op == op
    ensures EventTest(OfRank(rank), stackless, source)(x) <==> x.key.rank == rank
    ensures EventTest(OfSite(op, ByFrames(FramesOf(pc, source))), false, source)(x) <==>
            x.key.op == op && SameStack(x.key.pc, pc)
    ensures EventTest(OfSite(op, ById(op - BASE)), true, source)(x) <==> x.key.op == op
  {
    SameFrames(x.key.pc, pc, source);
  }

  lemma ChosenListed(b: seq<Rec>, r: Rec, q: SiteKey -> bool)
    requires SitesDiffer(b + [r])
    ensures SoundTable(TableOf(b)) && SoundTable(TableOf(b + [r]))
    ensures Chosen(TableOf(b + [r]), q) ==
            if q(r.site) then Into<SiteKey, SoundStats>(Chosen(TableOf(b), q), r.site, r.stats, Merged, Zero)
            else Chosen(TableOf(b), q)
  {
    var c := b + [r];
    assert c[..|b|] == b && c[|b|] == r;
    TableKeys(b, r.site);
    TableKeys(c, r.site);
    assert forall i :: 0 <= i < |b| ==> c[i] == b[i];
    MergeLaws(r.stats, r.stats, r.stats);
  }

  lemma TotalListed(b: seq<Rec>, r: Rec, q: SiteKey -> bool)
    requires SitesDiffer(b + [r])
    ensures SoundTable(TableOf(b)) && SoundTable(TableOf(b + [r]))
    ensures ChosenTotal(TableOf(b + [r]), q) ==
            if q(r.site) then Merged(ChosenTotal(TableOf(b), q), r.stats) else ChosenTotal(TableOf(b), q)
    ensures Chosen(TableOf(b + [r]), q) == map[] <==> !q(r.site) && Chosen(TableOf(b), q) == map[]
  {
    ChosenListed(b, r, q);
    if q(r.site) {
      MergedIsMonoid();
      TotalInto<SiteKey, SoundStats>(Chosen(TableOf(b), q), r.site, r.stats, Merged, Zero);
      assert r.site in Chosen(TableOf(b + [r]), q);
    }
  }

  lemma SelectedNext(b: seq<Rec>, r: Rec, sel: Sel, stackless: bool, source: int -> Source)
    ensures Select(InputsOf(b + [r], stackless, source), sel) ==
            var own := Select(InputsOf(b, stackless, source), sel);
            if SelTest(sel, stackless, source)(r.site) then own + [InputOf(r, stackless, source)] else own
  {
    MapNext(b, r, AsInput(stackless, source));
    FilterNext(InputsOf(b, stackless, source), InputOf(r, stackless, source), Test(sel));
    assert SelTest(sel, stackless, source)(r.site) == Matches(sel, InputOf(r, stackless, source));
  }

  /** The inputs made of some records, selected, amount to the chosen part of the table. */
  lemma {:induction false} ListedMeans(b: seq<Rec>, sel: Sel, stackless: bool, source: int -> Source)
    requires SitesDiffer(b)
    ensures SoundTable(TableOf(b))
    ensures Sum(Select(InputsOf(b, stackless, source), sel)) ==
            ChosenTotal(TableOf(b), SelTest(sel, stackless, source))
    ensures Select(InputsOf(b, stackless, source), sel) == [] <==>
            Chosen(TableOf(b), SelTest(sel, stackless, source)) == map[]
    decreases |b|
  {
    if b == [] {
      assert Chosen(TableOf(b), SelTest(sel, stackless, source)) == map[];
    } else {
      var n := |b| - 1;
      var rest, r := b[..n], b[n];
      assert rest + [r] == b;
      ListedMeans(rest, sel, stackless, source);
      TotalListed(rest, r, SelTest(sel, stackless, source));
      SelectedNext(rest, r, sel, stackless, source);
      SumNext(Select(InputsOf(rest, stackless, source), sel), InputOf(r, stackless, source));
    }
  }

  // ---------- All ranks together ----------

  /** `bs` are the batches of ranks whose events were `es`. */
  ghost predicate FromEvents(bs: seq<seq<Rec>>, es: seq<seq<Entry>>, threshold: int) {
    |bs| == |es| &&
    forall i :: 0 <= i < |bs| ==> Timed(es[i]) && IsListing(bs[i], RecordAll(map[], es[i], threshold))
  }

  lemma {:induction false} TableOfBoth(a: seq<Rec>, b: seq<Rec>)
    requires SitesDiffer(a + b)
    ensures TableOf(a + b) == MergeTables(TableOf(a), TableOf(b))
    decreases |b|
  {
    TableSound(a);
    if b == [] {
      assert a + b == a;
      MergeIsRecording(TableOf(a), [], 0);
    } else {
      var n := |b| - 1;
      var r, c := b[n], a + b[..n];
      assert a + b == c + [r];
      assert forall i :: 0 <= i < |c| ==> c[i] == (a + b)[i];
      TableOfBoth(a, b[..n]);
      NewSiteMerged(a, b[..n], r);
    }
  }

  lemma TableSound(a: seq<Rec>)
    ensures SoundTable(TableOf(a))
  {
    TableKeys(a, SiteKey(0, 0, []));
  }

  lemma NewSiteMerged(a: seq<Rec>, b: seq<Rec>, r: Rec)
    requires SitesDiffer(a + b + [r])
    ensures MergeTables(TableOf(a), TableOf(b))[r.site := r.stats] == MergeTables(TableOf(a), TableOf(b + [r]))
  {
    var c := a + b + [r];
    TableKeys(a, r.site);
    assert forall i :: 0 <= i < |a| ==> a[i] == c[i];
    assert c[|a| + |b|] == r;
    assert (b + [r])[..|b|] == b && (b + [r])[|b|] == r;
    MergeLaws(r.stats, Zero, Zero);
  }

  lemma SitesDifferPart(a: seq<Rec>, b: seq<Rec>)
    requires SitesDiffer(a + b)
    ensures SitesDiffer(a)
  {
    assert forall i :: 0 <= i < |a| ==> a[i] == (a + b)[i];
  }

  /** The batches together list the table of all events together. */
  lemma {:induction false} BatchesTable(bs: seq<seq<Rec>>, es: seq<seq<Entry>>, threshold: int)
    requires FromEvents(bs, es, threshold) && SitesDiffer(Concat(bs))
    ensures TableOf(Concat(bs)) == RecordAll(map[], Concat(es), threshold) && Timed(Concat(es))
    decreases |bs|
  {
    if bs != [] {
      var n := |bs| - 1;
      var a, xs := Concat(bs[..n]), Concat(es[..n]);
      SitesDifferPart(a, bs[n]);
      BatchesTable(bs[..n], es[..n], threshold);
      TableOfBoth(a, bs[n]);
      RecordAllSound(map[], xs, threshold);
      MergeIsRecording(RecordAll(map[], xs, threshold), es[n], threshold);
      RecordAllConcat(map[], xs, es[n], threshold);
    }
  }

  lemma BatchesDiffer(bs: seq<seq<Rec>>, ranks: seq<int>, size: nat, depth: nat, stackless: bool)
    requires Batches(bs, ranks, size, depth, stackless)
    ensures SitesDiffer(Concat(bs))
  {
    BatchesDistinct(bs, ranks, size, depth, stackless);
    var c := Concat(bs);
    forall i, j | 0 <= i < j < |c| ensures c[i].site != c[j].site {
      assert c[i] in c && c[j] in c && c[i] != c[j];
    }
  }

  /** Any selection of what the collector gets amounts to the events it is about, of all ranks: by operation,
      by rank, by call site, or all. */
  lemma SelectionMeans(bs: seq<seq<Rec>>, ranks: seq<int>, es: seq<seq<Entry>>, threshold: int, sel: Sel,
                       size: nat, depth: nat, stackless: bool, source: int -> Source)
    requires Batches(bs, ranks, size, depth, stackless) && FromEvents(bs, es, threshold)
    ensures var own := Filter(Concat(es), EventTest(sel, stackless, source));
            var got := Select(InputsOf(Concat(bs), stackless, source), sel);
            Sum(got) == Amount(own, threshold) && (got == [] <==> own == [])
  {
    BatchesDiffer(bs, ranks, size, depth, stackless);
    BatchesTable(bs, es, threshold);
    ListedMeans(Concat(bs), sel, stackless, source);
    ChosenMeans(Concat(es), SelTest(sel, stackless, source), threshold);
  }

  lemma {:induction false} AllChosen<T>(xs: seq<T>, f: T -> bool)
    requires forall i :: 0 <= i < |xs| ==> f(xs[i])
    ensures Filter(xs, f) == xs
    decreases |xs|
  {
    if xs != [] { AllChosen(xs[..|xs| - 1], f); }
  }

  /** In particular, everything that the collector gets amounts to all events. */
  lemma EverythingMeans(bs: seq<seq<Rec>>, ranks: seq<int>, es: seq<seq<Entry>>, threshold: int,
                        size: nat, depth: nat, stackless: bool, source: int -> Source)
    requires Batches(bs, ranks, size, depth, stackless) && FromEvents(bs, es, threshold)
    ensures Sum(InputsOf(Concat(bs), stackless, source)) == Amount(Concat(es), threshold)
  {
    SelectionMeans(bs, ranks, es, threshold, All, size, depth, stackless, source);
    AllChosen(InputsOf(Concat(bs), stackless, source), Test(All));
    var q := SelTest(All, stackless, source);
    assert forall k: SiteKey :: q(k);
    assert forall x: Entry :: KeyTest(q)(x) == q(x.key);
    AllChosen(Concat(es), KeyTest(q));
  }

  // ---------- From the threads to the collector ----------

  /** Every record is in the table, and every key of the table has a record. */
  ghost predicate Describes(b: seq<Rec>, t: Table) {
    && SitesDiffer(b) && (forall k <- t :: exists i :: 0 <= i < |b| && b[i].site == k)
    && forall i :: 0 <= i < |b| ==> b[i].site in t && t[b[i].site] == b[i].stats
  }

  lemma DescribesRest(b: seq<Rec>, t: Table)
    requires Describes(b, t) && b != []
    ensures Describes(b[..|b| - 1], t - {b[|b| - 1].site})
  {
    var n := |b| - 1;
    var rest := b[..n];
    assert forall i :: 0 <= i < n ==> rest[i] == b[i];
    forall k | k in t - {b[n].site} ensures exists i :: 0 <= i < n && rest[i].site == k {
      var i :| 0 <= i < |b| && b[i].site == k;
      assert rest[i].site == k;
    }
  }

  lemma {:induction false} ListingTable(b: seq<Rec>, t: Table)
    requires Describes(b, t)
    ensures TableOf(b) == t
    decreases |b|
  {
    if b != [] {
      DescribesRest(b, t);
      ListingTable(b[..|b| - 1], t - {b[|b| - 1].site});
    }
  }

  /** What is sent from a gathered table is a listing of it. */
  lemma SentIsListing(av: seq<Callsite>, u: Table)
    requires Gathered(av, u) && SoundTable(u)
    ensures (forall i :: 0 <= i < |av| ==> Sound(av[i].Value())) && IsListing(Sent(av), u)
  {
    forall i | 0 <= i < |av| ensures Sound(av[i].Value()) && av[i].key in u {}
    var b := Sent(av);
    assert forall i :: 0 <= i < |b| ==> b[i].site == av[i].key && b[i].stats == av[i].Value();
    forall k | k in u ensures exists i :: 0 <= i < |b| && b[i].site == k {
      assert k in KeysOf(av);
      var r :| r in av && r.key == k;
      var i := Find(av, r);
      assert b[i].site == k;
    }
    ListingTable(b, u);
  }

  method GatherTable(stats: ThreadStats) returns (av: seq<Callsite>)
    requires stats.Valid()
    ensures (forall i :: 0 <= i < |av| ==> Sound(av[i].Value())) && IsListing(Sent(av), stats.View())
  {
    av := stats.Gather();
    stats.ViewSound();
    SentIsListing(av, stats.View());
  }

  /** A rank merges its threads and gathers its records, to send them: after any steps of its threads they
      list the events that were due since the last reset. */
  method GatherResults(mt: MtStats, ghost ops: seq<Step>, ghost log: seq<seq<Entry>>, threshold: int)
    returns (av: seq<Callsite>)
    requires mt.Between(TrailOf(ops, mt.multiThreaded), log, threshold)
    modifies mt.rank_stats`cs_stats, mt.rank_stats`records, mt.rank_stats.records
    ensures mt.Between(TrailOf(ops, mt.multiThreaded), log, threshold)
    ensures forall i :: 0 <= i < |av| ==> Sound(av[i].Value())
    ensures var due := EventsEnded(ops, mt.multiThreaded);
            Timed(due) && IsListing(Sent(av), RecordAll(map[], due, threshold))
    ensures forall k :: At(TableOf(Sent(av)), k).count == Ended(ops, mt.multiThreaded, k)
  {
    DueIsEnded(ops, mt.multiThreaded);
    forall k ensures At(RecordAll(map[], EventsEnded(ops, mt.multiThreaded), threshold), k).count ==
                     Ended(ops, mt.multiThreaded, k)
    {
      DueTable(ops, mt.multiThreaded, k, threshold);
    }
    DueTimed(ops, mt.multiThreaded);
    mt.DoMerge(TrailOf(ops, mt.multiThreaded), log, threshold);
    av := GatherTable(mt.rank_stats);
  }

  // ---------- The report ----------

  /** The events of all ranks that a selection is about. */
  ghost function About(c: Collector, es: seq<seq<Entry>>, sel: Sel): seq<Entry> {
    Filter(Concat(es), EventTest(sel, c.cache.stackless, Sources(c.cache.loc, c.doLookup)))
  }

  ghost function AmountAbout(c: Collector, es: seq<seq<Entry>>, threshold: int, sel: Sel): Stats {
    Amount(About(c, es, sel), threshold)
  }

  /** There is a row for an operation exactly if it has events, and it is what these amount to. */
  ghost predicate OpReported(c: Collector, es: seq<seq<Entry>>, threshold: int, op: int)
    reads c
  {
    && (op in c.ops <==> About(c, es, OfOp(op)) != [])
    && (op in c.ops ==> c.ops[op].csid == op - BASE && c.ops[op].stats == AmountAbout(c, es, threshold, OfOp(op)))
  }

  /** And for an operation and a stack, by its id. */
  ghost predicate SiteReported(c: Collector, es: seq<seq<Entry>>, threshold: int, op: int, key: IdKey)
    requires key in c.cache.callsite_src_id_cache
    reads c.cache, c.sites
  {
    var site := SiteFor(op, c.cache.callsite_src_id_cache[key], -1, false);
    && (site in c.sites.view <==> About(c, es, OfSite(op, key)) != [])
    && (site in c.sites.view ==>
          c.sites.view[site].stats == AmountAbout(c, es, threshold, OfSite(op, key)) &&
          SumOf(c.sites.view[site].times) == AmountAbout(c, es, threshold, OfSite(op, key)).time)
  }

  ghost predicate SitesReported(c: Collector, es: seq<seq<Entry>>, threshold: int)
    reads c.cache, c.sites
  {
    forall op, key | key in c.cache.callsite_src_id_cache :: SiteReported(c, es, threshold, op, key)
  }

  /** The time of each rank. */
  ghost predicate TimesReported(c: Collector, es: seq<seq<Entry>>, threshold: int)
    reads c.taskTime
  {
    c.taskTime.Length == c.size &&
    forall r :: 0 <= r < c.size ==> c.taskTime[r] == AmountAbout(c, es, threshold, OfRank(r)).time
  }

  /** And the totals, beyond what earlier reports have left. */
  ghost predicate TotalsReported(c: Collector, es: seq<seq<Entry>>, threshold: int)
    reads c`totals
  {
    var all := Amount(Concat(es), threshold);
    && c.totals.time == c.base.time + all.time && c.totals.size == c.base.size + all.dataSent
    && c.totals.io == c.base.io + all.io && c.totals.rma == c.base.rma + all.rma
  }

  lemma SitesAreReported(c: Collector, bs: seq<seq<Rec>>, ranks: seq<int>, es: seq<seq<Entry>>, threshold: int)
    requires Batches(bs, ranks, c.size, c.cache.depth, c.cache.stackless) && FromEvents(bs, es, threshold)
    requires c.Holds(c.Inputs(Concat(bs)))
    ensures SitesReported(c, es, threshold)
  {
    var xs, ids := c.Inputs(Concat(bs)), c.cache.State();
    GroupsAreSelections(c.start, xs, false, c.cache.stackless);
    forall op, key | key in c.cache.callsite_src_id_cache ensures SiteReported(c, es, threshold, op, key) {
      assert GroupOk(ids, GroupsOf(c.start, xs, false), xs, false, op, key, -1);
      TimesAddUp(Select(xs, OfSite(op, key)));
      SelectionMeans(bs, ranks, es, threshold, OfSite(op, key), c.size, c.cache.depth, c.cache.stackless,
                     Sources(c.cache.loc, c.doLookup));
    }
  }

  lemma TimesAreReported(c: Collector, bs: seq<seq<Rec>>, ranks: seq<int>, es: seq<seq<Entry>>, threshold: int)
    requires Batches(bs, ranks, c.size, c.cache.depth, c.cache.stackless) && FromEvents(bs, es, threshold)
    requires c.Says(c.Inputs(Concat(bs)))
    ensures TimesReported(c, es, threshold)
  {
    var xs := c.Inputs(Concat(bs));
    assert |c.taskTime[..]| == |TaskTimes(xs, c.size)|;
    forall r | 0 <= r < c.size ensures c.taskTime[r] == AmountAbout(c, es, threshold, OfRank(r)).time {
      assert c.taskTime[r] == c.taskTime[..][r] == TaskTime(xs, r);
      SelectionMeans(bs, ranks, es, threshold, OfRank(r), c.size, c.cache.depth, c.cache.stackless,
                     Sources(c.cache.loc, c.doLookup));
    }
  }

  lemma TotalsAreReported(c: Collector, bs: seq<seq<Rec>>, ranks: seq<int>, es: seq<seq<Entry>>, threshold: int)
    requires Batches(bs, ranks, c.size, c.cache.depth, c.cache.stackless) && FromEvents(bs, es, threshold)
    requires c.Says(c.Inputs(Concat(bs)))
    ensures TotalsReported(c, es, threshold)
  {
    var xs := c.Inputs(Concat(bs));
    TotalsAreSums(xs);
    EverythingMeans(bs, ranks, es, threshold, c.size, c.cache.depth, c.cache.stackless,
                    Sources(c.cache.loc, c.doLookup));
  }

  lemma SiteOfOp(ids: Ids, m: Groups, p: Input)
    requires IdsOk(ids) && p.key == ById(p.op - BASE) && forall s <- m :: s.csid == s.op - BASE
    ensures IdsOk(Queried(ids, p.key))
    ensures forall s <- GroupInsert(ids, m, p, false) :: s.csid == s.op - BASE && (s in m || s.op == p.op)
  {
    QueriedOk(ids, p.key);
  }

  lemma SelectedOp(xs: seq<Input>, p: Input, op: int)
    ensures Select(xs + [p], OfOp(op)) == [] <==> Select(xs, OfOp(op)) == [] && p.op != op
  {
    FilterNext(xs, p, Test(OfOp(op)));
  }

  /** Without stacks the sites of a table are numbered from their operations. */
  lemma {:induction false} SitesOfOps(ids: Ids, xs: seq<Input>)
    requires IdsOk(ids) && forall i :: 0 <= i < |xs| ==> xs[i].key == ById(xs[i].op - BASE)
    ensures IdsOk(IdsAfter(ids, xs))
    ensures forall s <- GroupsOf(ids, xs, false) :: s.csid == s.op - BASE && Select(xs, OfOp(s.op)) != []
    decreases |xs|
  {
    if xs != [] {
      var n := |xs| - 1;
      var rest, p := xs[..n], xs[n];
      assert rest + [p] == xs;
      assert forall i :: 0 <= i < n ==> rest[i] == xs[i];
      SitesOfOps(ids, rest);
      SiteOfOp(IdsAfter(ids, rest), GroupsOf(ids, rest, false), p);
      InsertedNext(ids, rest, p, false);
      forall s | s in GroupsOf(ids, xs, false) ensures Select(xs, OfOp(s.op)) != [] {
        SelectedOp(rest, p, s.op);
      }
    }
  }

  /** So the id of a site is that of the row of its operation. */
  ghost predicate SameIds(c: Collector)
    reads c, c.sites
  {
    forall s <- c.sites.view :: s.csid == s.op - BASE && s.op in c.ops && c.ops[s.op].csid == s.csid
  }

  lemma IdsAreSame(c: Collector, rs: seq<Rec>)
    requires c.cache.stackless && c.Holds(c.Inputs(rs))
    requires forall op :: op in c.ops <==> Select(c.Inputs(rs), OfOp(op)) != []
    requires forall op <- c.ops :: c.ops[op].csid == op - BASE
    ensures SameIds(c)
  {
    SitesOfOps(c.start, c.Inputs(rs));
  }

  method ReportOps(c: Collector, ghost bs: seq<seq<Rec>>, ghost ranks: seq<int>, ghost es: seq<seq<Entry>>,
                   threshold: int)
    requires Batches(bs, ranks, c.size, c.cache.depth, c.cache.stackless) && FromEvents(bs, es, threshold)
    requires c.cache.stackless && c.Holds(c.Inputs(Concat(bs)))
    modifies c`ops
    ensures c.Holds(c.Inputs(Concat(bs))) && SameIds(c) && forall op :: OpReported(c, es, threshold, op)
  {
    c.InsertMPIRecords(c.Inputs(Concat(bs)));
    IdsAreSame(c, Concat(bs));
    forall op ensures OpReported(c, es, threshold, op) {
      SelectionMeans(bs, ranks, es, threshold, OfOp(op), c.size, c.cache.depth, c.cache.stackless,
                     Sources(c.cache.loc, c.doLookup));
    }
  }

  /** What the collector does with its own records and with the batches that arrive from the other ranks:
      when the batches list the events of the ranks, every table of the report says what the events amount
      to. The table of operations is made only when stacks are not reported. */
  method GenerateReport(c: Collector, local: seq<Rec>, remote: seq<seq<Rec>>, ghost ranks: seq<int>,
                        ghost es: seq<seq<Entry>>, threshold: int)
    requires c.Holds([]) && Batches([local] + remote, ranks, c.size, c.cache.depth, c.cache.stackless)
    requires FromEvents([local] + remote, es, threshold)
    modifies c.cache, c, c.sites`rows, c.sites`view, c.sites`arrays, c.sites.arrays, c.taskTime
    ensures if c.cache.stackless then forall op :: OpReported(c, es, threshold, op) else c.ops == old(c.ops)
    ensures c.cache.stackless ==> SameIds(c)
    ensures SitesReported(c, es, threshold) && TimesReported(c, es, threshold) && TotalsReported(c, es, threshold)
  {
    ghost var bs := [local] + remote;
    c.MergeResults(local, remote, ranks);
    if c.cache.stackless {
      ReportOps(c, bs, ranks, es, threshold);
    }
    SitesAreReported(c, bs, ranks, es, threshold);
    TimesAreReported(c, bs, ranks, es, threshold);
    TotalsAreReported(c, bs, ranks, es, threshold);
  }
}

/** Call-site records and the tables of threads as they are updated in place. */
module ThreadStats {
  import opened CallsiteStats

  /** `callsite_stats_t`, as the threads fill it. */
  class Callsite {
    const key: SiteKey
    var count: int
    var cumulativeTime: real
    var cumulativeTimeSquared: real
    var maxDur: real
    var minDur: Least
    var cumulativeDataSent: real
    var maxDataSent: real
    var minDataSent: Least
    var cumulativeIO: real
    var maxIO: real
    var minIO: Least
    var cumulativeRMA: real
    var arbitraryMessageCount: int

    ghost function Value(): Stats
      reads this
    {
      Stats(count, cumulativeTime, cumulativeTimeSquared, maxDur, minDur,
            cumulativeDataSent, maxDataSent, minDataSent, cumulativeIO, maxIO, minIO,
            cumulativeRMA, arbitraryMessageCount)
    }

    /** A record cleared to zero bytes, then set up by `mpiPi_cs_init`. */
    constructor (key: SiteKey)
      ensures this.key == key && Value() == Zero
    {
      this.key := key;
      cumulativeRMA := 0.0;
      new;
      ResetStat();
    }

    /** Clears everything but the RMA sum. */
    method ResetStat()
      modifies this
      ensures Value() == Zero.(rma := old(cumulativeRMA))
    {
      maxDur, minDur := 0.0, Unset;
      maxIO, minIO := 0.0, Unset;
      maxDataSent, minDataSent := 0.0, Unset;
      count := 0;
      cumulativeTime, cumulativeTimeSquared := 0.0, 0.0;
      cumulativeDataSent, cumulativeIO := 0.0, 0.0;
      arbitraryMessageCount := 0;
    }

    /** The sums that the original asserts to be non-negative are. */
    method Update(dur: real, sendSize: real, ioSize: real, rmaSize: real, threshold: int)
      requires Sound(Value()) && dur >= 0.0
      modifies this
      ensures Value() == CallsiteStats.Update(old(Value()), Event(dur, sendSize, ioSize, rmaSize), threshold)
      ensures Sound(Value())
    {
      UpdateSound(Value(), Event(dur, sendSize, ioSize, rmaSize), threshold);
      count := count + 1;
      cumulativeTime := cumulativeTime + dur;
      cumulativeTimeSquared := cumulativeTimeSquared + dur * dur;
      maxDur, minDur := Max(maxDur, dur), Min(minDur, Least(dur));
      cumulativeDataSent := cumulativeDataSent + sendSize;
      cumulativeIO := cumulativeIO + ioSize;
      cumulativeRMA := cumulativeRMA + rmaSize;
      maxDataSent, minDataSent := Max(maxDataSent, sendSize), Min(minDataSent, Least(sendSize));
      maxIO, minIO := Max(maxIO, ioSize), Min(minIO, Least(ioSize));
      if threshold > -1 && sendSize >= threshold as real {
        arbitraryMessageCount := arbitraryMessageCount + 1;
      }
    }

    method Merge(src: Callsite)
      requires Sound(Value()) && Sound(src.Value())
      modifies this
      ensures Value() == CallsiteStats.Merge(old(Value()), old(src.Value()))
      ensures Sound(Value())
    {
      MergeLaws(Value(), src.Value(), Zero);
      count := count + src.count;
      cumulativeTime := cumulativeTime + src.cumulativeTime;
      cumulativeTimeSquared := cumulativeTimeSquared + src.cumulativeTimeSquared;
      maxDur, minDur := Max(maxDur, src.maxDur), Min(minDur, src.minDur);
      maxDataSent, minDataSent := Max(maxDataSent, src.maxDataSent), Min(minDataSent, src.minDataSent);
      cumulativeDataSent := cumulativeDataSent + src.cumulativeDataSent;
      maxIO, minIO := Max(maxIO, src.maxIO), Min(minIO, src.minIO);
      cumulativeIO := cumulativeIO + src.cumulativeIO;
      cumulativeRMA := cumulativeRMA + src.cumulativeRMA;
      arbitraryMessageCount := arbitraryMessageCount + src.arbitraryMessageCount;
    }
  }

  /** A profiled MPI call with the profiled calls that the MPI library makes inside it; whether profiling
      is enabled when the call has returned, and still is when it is recorded. */
  datatype Call = Call(entry: Entry, enabled: bool, still: bool, nested: seq<Call>)

  /** What is recorded at the end of an outermost call: nothing if the clock went backwards. */
  function Due(x: Entry, enabled: bool, still: bool): seq<Entry> {
    if enabled && still && x.event.dur >= 0.0 then [x] else []
  }

  function Own(c: Call): seq<Entry> {
    Due(c.entry, c.enabled, c.still)
  }

  /** The entries recorded for a call when `disabled` has the value `d` around it. */
  function Recorded(c: Call, d: int): seq<Entry>
    decreases c, 1
  {
    RecordedIn(c, c.nested, d - 1) + if d == 0 then Own(c) else []
  }

  function RecordedIn(c: Call, nested: seq<Call>, d: int): seq<Entry>
    requires forall i :: 0 <= i < |nested| ==> nested[i] in c.nested
    decreases c, 0, |nested|
  {
    if nested == [] then []
    else
      var n := |nested| - 1;
      assert nested[n] in c.nested;
      RecordedIn(c, nested[..n], d) + Recorded(nested[n], d)
  }

  /** Below zero nothing is recorded; in particular, of a call made with the counter at zero, at most the
      outermost call is. */
  lemma {:induction false} NothingBelowZero(c: Call, d: int)
    requires d < 0
    ensures Recorded(c, d) == []
    decreases c, 1
  {
    NothingBelowZeroIn(c, c.nested, d - 1);
  }

  lemma {:induction false} NothingBelowZeroIn(c: Call, nested: seq<Call>, d: int)
    requires d < 0 && forall i :: 0 <= i < |nested| ==> nested[i] in c.nested
    ensures RecordedIn(c, nested, d) == []
    decreases c, 0, |nested|
  {
    if nested != [] {
      var n := |nested| - 1;
      assert nested[n] in c.nested;
      NothingBelowZeroIn(c, nested[..n], d);
      NothingBelowZero(nested[n], d);
    }
  }

  lemma OutermostOnly(c: Call)
    ensures Recorded(c, 0) == Own(c)
    ensures Recorded(c, 0) == if c.enabled && c.still && c.entry.event.dur >= 0.0 then [c.entry] else []
  {
    NothingBelowZeroIn(c, c.nested, -1);
  }

  /** Of a whole tree of calls made with the counter at zero, exactly one event is counted, under the key of
      the outermost call, if that is enabled at both times and took no negative time; and none otherwise. */
  lemma OutermostCounts(c: Call, k: SiteKey)
    ensures CountOf(Recorded(c, 0), k) ==
            if k == c.entry.key && c.enabled && c.still && c.entry.event.dur >= 0.0 then 1 else 0
  {
    OutermostOnly(c);
    assert [c.entry][..0] == [];
  }

  lemma RecordOne(t: Table, x: Entry, threshold: int)
    ensures RecordAll(t, [x], threshold) == Record(t, x, threshold) && RecordAll(t, [], threshold) == t
  {
    assert [x][..0] == [];
  }

  /** What a tree of calls makes of a table, when the counter is zero or below. */
  lemma RecordedMeans(v: Table, c: Call, d: int, threshold: int)
    ensures d == 0 ==> RecordAll(v, Recorded(c, d), threshold) ==
                       if c.enabled && c.still && c.entry.event.dur >= 0.0 then Record(v, c.entry, threshold) else v
    ensures d < 0 ==> RecordAll(v, Recorded(c, d), threshold) == v
  {
    if d == 0 { OutermostOnly(c); }
    if d < 0 { NothingBelowZero(c, d); }
    RecordOne(v, c.entry, threshold);
  }

  /** First the calls inside, then the call itself. */
  lemma RecordedCall(v: Table, c: Call, d: int, threshold: int)
    ensures RecordAll(v, Recorded(c, d), threshold) ==
            RecordAll(RecordAll(v, RecordedIn(c, c.nested, d - 1), threshold), if d == 0 then Own(c) else [], threshold)
  {
    RecordAllConcat(v, RecordedIn(c, c.nested, d - 1), if d == 0 then Own(c) else [], threshold);
  }

  lemma RecordedNext(v: Table, c: Call, i: nat, d: int, threshold: int)
    requires i < |c.nested|
    ensures RecordAll(RecordAll(v, RecordedIn(c, c.nested[..i], d), threshold), Recorded(c.nested[i], d), threshold)
            == RecordAll(v, RecordedIn(c, c.nested[..i + 1], d), threshold)
  {
    RecordAllConcat(v, RecordedIn(c, c.nested[..i], d), Recorded(c.nested[i], d), threshold);
    assert c.nested[..i + 1][..i] == c.nested[..i];
  }

  ghost function KeysOf(av: seq<Callsite>): set<SiteKey> {
    set r <- av :: r.key
  }

  /** The records `av` hold the table `u`, each key once. */
  ghost predicate Gathered(av: seq<Callsite>, u: Table)
    reads av
  {
    && (forall i, j :: 0 <= i < j < |av| ==> av[i].key != av[j].key)
    && KeysOf(av) == u.Keys
    && (forall i :: 0 <= i < |av| ==> av[i].key in u && av[i].Value() == u[av[i].key])
  }

  lemma KeysOfNext(av: seq<Callsite>, i: nat)
    requires i < |av| && forall i, j :: 0 <= i < j < |av| ==> av[i].key != av[j].key
    ensures KeysOf(av[..i + 1]) == KeysOf(av[..i]) + {av[i].key}
    ensures av[i].key !in KeysOf(av[..i]) && KeysOf(av[..i]) <= KeysOf(av)
  {
    assert av[..i + 1] == av[..i] + [av[i]];
  }

  /** The keys `done` of `u` are merged into `t`. */
  ghost function MergePart(t: Table, u: Table, done: set<SiteKey>): Table
    requires done <= u.Keys
  {
    map k <- t.Keys + done :: if k in done then CallsiteStats.Merge(At(t, k), u[k]) else t[k]
  }

  lemma MergePartStep(t: Table, u: Table, done: set<SiteKey>, k: SiteKey)
    requires done <= u.Keys && k in u && k !in done
    ensures MergePart(t, u, done)[k := CallsiteStats.Merge(At(MergePart(t, u, done), k), u[k])] ==
            MergePart(t, u, done + {k})
  {
  }

  lemma MergePartAll(t: Table, u: Table)
    requires SoundTable(t)
    ensures MergePart(t, u, u.Keys) == MergeTables(t, u)
  {
    forall k | k in t && k !in u ensures CallsiteStats.Merge(t[k], Zero) == t[k] {
      MergeLaws(t[k], Zero, Zero);
    }
  }

  class ThreadStats {
    var disabled: int
    var cs_stats: map<SiteKey, Callsite>
    ghost var records: set<Callsite>

    ghost predicate Valid()
      reads this`cs_stats, this`records, records
    {
      forall k <- cs_stats :: cs_stats[k] in records && cs_stats[k].key == k && Sound(cs_stats[k].Value())
    }

    ghost function View(): Table
      reads this`cs_stats, this`records, records
      requires Valid()
    {
      map k <- cs_stats :: cs_stats[k].Value()
    }

    lemma ViewSound()
      requires Valid()
      ensures SoundTable(View())
    {
    }

    constructor ()
      ensures Valid() && View() == map[] && disabled == 0 && records == {}
    {
      disabled, cs_stats, records := 0, map[], {};
    }

    predicate IsOn(enabled: bool)
      reads this`disabled
    {
      disabled == 0 && enabled
    }

    method Enter()
      modifies this`disabled
      ensures disabled == old(disabled) - 1
    {
      disabled := disabled - 1;
    }

    method Exit()
      modifies this`disabled
      ensures disabled == old(disabled) + 1
    {
      disabled := disabled + 1;
    }

    /** The record for a key, created if there is none. */
    method Lookup(key: SiteKey) returns (csp: Callsite)
      requires Valid()
      modifies this`cs_stats, this`records
      ensures Valid() && key in cs_stats && cs_stats[key] == csp && csp.key == key
      ensures fresh(records - old(records))
      ensures View() == if key in old(cs_stats) then old(View()) else old(View())[key := Zero]
    {
      if key in cs_stats {
        csp := cs_stats[key];
      } else {
        csp := new Callsite(key);
        cs_stats, records := cs_stats[key := csp], records + {csp};
      }
    }

    /** Only one record changes, because each record has its own key. */
    method UpdateRecord(csp: Callsite, e: Event, threshold: int)
      requires Valid() && csp.key in cs_stats && cs_stats[csp.key] == csp && e.dur >= 0.0
      modifies csp
      ensures Valid() && View() == old(View())[csp.key := CallsiteStats.Update(old(View())[csp.key], e, threshold)]
    {
      csp.Update(e.dur, e.sendSize, e.ioSize, e.rmaSize, threshold);
    }

    method MergeRecord(csp: Callsite, src: Callsite)
      requires Valid() && csp.key in cs_stats && cs_stats[csp.key] == csp && Sound(src.Value())
      modifies csp
      ensures Valid() && View() == old(View())[csp.key := CallsiteStats.Merge(old(View())[csp.key], old(src.Value()))]
    {
      csp.Merge(src);
    }

    method CsUpd(enabled: bool, x: Entry, threshold: int)
      requires Valid() && x.event.dur >= 0.0
      modifies this`cs_stats, this`records, records
      ensures Valid() && fresh(records - old(records))
      ensures View() == if disabled == 0 && enabled then Record(old(View()), x, threshold) else old(View())
    {
      if !IsOn(enabled) {
        return;
      }
      var csp := Lookup(x.key);
      UpdateRecord(csp, x.event, threshold);
    }

    /** One wrapper around a profiled call: the call itself runs with the counter lowered, and its
        statistics are recorded afterwards, unless the clock went backwards. */
    method Profile(c: Call, threshold: int)
      requires Valid()
      modifies this, records
      ensures Valid() && disabled == old(disabled) && fresh(records - old(records))
      ensures View() == RecordAll(old(View()), Recorded(c, old(disabled)), threshold)
      ensures old(disabled) == 0 ==>
        View() == if c.enabled && c.still && c.entry.event.dur >= 0.0 then Record(old(View()), c.entry, threshold)
                  else old(View())
      ensures old(disabled) < 0 ==> View() == old(View())
      decreases c, 1
    {
      RecordedMeans(View(), c, disabled, threshold);
      RecordedCall(View(), c, disabled, threshold);
      RunInside(c, threshold);
      Conclude(c.entry, c.enabled, c.still, threshold);
    }

    /** The call proper, which calls the others. */
    method RunInside(c: Call, threshold: int)
      requires Valid()
      modifies this, records
      ensures Valid() && disabled == old(disabled) && fresh(records - old(records))
      ensures View() == RecordAll(old(View()), RecordedIn(c, c.nested, old(disabled) - 1), threshold)
      decreases c, 0, 1
    {
      Enter();
      ProfileNested(c, threshold);
      Exit();
    }

    /** The end of the wrapper. */
    method Conclude(x: Entry, enabled: bool, still: bool, threshold: int)
      requires Valid()
      modifies this`cs_stats, this`records, records
      ensures Valid() && fresh(records - old(records))
      ensures View() ==
              RecordAll(old(View()), if disabled == 0 then Due(x, enabled, still) else [], threshold)
      ensures View() == if disabled == 0 && enabled && still && x.event.dur >= 0.0
                        then Record(old(View()), x, threshold) else old(View())
    {
      RecordOne(View(), x, threshold);
      if IsOn(enabled) {
        if x.event.dur >= 0.0 {
          CsUpd(still, x, threshold);
        }
      }
    }

    method ProfileNested(c: Call, threshold: int)
      requires Valid()
      modifies this, records
      ensures Valid() && disabled == old(disabled) && fresh(records - old(records))
      ensures View() == RecordAll(old(View()), RecordedIn(c, c.nested, old(disabled)), threshold)
      decreases c, 0, 0
    {
      ghost var d, v := disabled, View();
      var i := 0;
      while i < |c.nested|
        invariant 0 <= i <= |c.nested| && Valid() && disabled == d
        invariant fresh(records - old(records))
        invariant View() == RecordAll(v, RecordedIn(c, c.nested[..i], d), threshold)
      {
        Profile(c.nested[i], threshold);
        RecordedNext(v, c, i, d, threshold);
        i := i + 1;
      }
      assert c.nested[..i] == c.nested;
    }

    /** All records, in the order of the hash table, which may be any. */
    method Gather() returns (av: seq<Callsite>)
      requires Valid()
      ensures |av| == |cs_stats| && Gathered(av, View()) && forall i :: 0 <= i < |av| ==> av[i] in records
    {
      av := [];
      var left := cs_stats.Keys;
      while left != {}
        invariant left <= cs_stats.Keys && |av| + |left| == |cs_stats|
        invariant forall i :: 0 <= i < |av| ==>
          av[i].key in cs_stats && cs_stats[av[i].key] == av[i] && av[i].key !in left
        invariant forall i, j :: 0 <= i < j < |av| ==> av[i].key != av[j].key
        invariant forall k <- cs_stats :: k in left || cs_stats[k] in av
        decreases left
      {
        var k :| k in left;
        av, left := av + [cs_stats[k]], left - {k};
      }
      forall k | k in cs_stats ensures k in KeysOf(av) {
        assert cs_stats[k] in av;
      }
    }

    method CsReset()
      requires Valid()
      modifies this`cs_stats, this`records
      ensures Valid() && View() == map[] && records == {}
    {
      cs_stats, records := map[], {};
    }

    /** Looks the key of `src` up, creating the record if needed, and merges `src` in. */
    method MergeOne(src: Callsite)
      requires Valid() && Sound(src.Value()) && src !in records
      modifies this`cs_stats, this`records, records
      ensures Valid() && fresh(records - old(records))
      ensures View() == old(View())[src.key := CallsiteStats.Merge(At(old(View()), src.key), old(src.Value()))]
    {
      var csp_dst := Lookup(src.key);
      MergeRecord(csp_dst, src);
    }

    /** One gathered record of another table `u` is merged in; the others are not touched. */
    method MergeNth(av: seq<Callsite>, i: nat, ghost t: Table, ghost u: Table)
      requires Valid() && SoundTable(u) && Gathered(av, u) && i < |av|
      requires (forall j :: 0 <= j < |av| ==> av[j] !in records) && View() == MergePart(t, u, KeysOf(av[..i]))
      modifies this`cs_stats, this`records, records
      ensures Valid() && fresh(records - old(records)) && forall j :: 0 <= j < |av| ==> av[j] !in records
      ensures Gathered(av, u) && View() == MergePart(t, u, KeysOf(av[..i + 1]))
    {
      KeysOfNext(av, i);
      MergePartStep(t, u, KeysOf(av[..i]), av[i].key);
      MergeOne(av[i]);
      assert Gathered(av, u);
    }

    /** The loop of `mpiPi_stats_thr_cs_merge` over the gathered records, which hold the table `u`. */
    method MergeGathered(av: seq<Callsite>, ghost u: Table)
      requires Valid() && SoundTable(u) && Gathered(av, u) && forall i :: 0 <= i < |av| ==> av[i] !in records
      modifies this`cs_stats, this`records, records
      ensures Valid() && fresh(records - old(records))
      ensures View() == MergeTables(old(View()), u)
    {
      ghost var t := View();
      var i := 0;
      while i < |av|
        invariant 0 <= i <= |av| && Valid() && Gathered(av, u)
        invariant fresh(records - old(records)) && forall i :: 0 <= i < |av| ==> av[i] !in records
        invariant View() == MergePart(t, u, KeysOf(av[..i]))
      {
        MergeNth(av, i, t, u);
        i := i + 1;
      }
      assert av[..i] == av;
      MergePartAll(t, u);
    }

    /** Merges every record of another thread into this table. */
    method CsMerge(src: ThreadStats)
      requires Valid() && src.Valid() && src != this && records !! src.records
      modifies this`cs_stats, this`records, records
      ensures Valid() && fresh(records - old(records))
      ensures View() == MergeTables(old(View()), old(src.View()))
    {
      src.ViewSound();
      ghost var t, u := View(), src.View();
      var av := src.Gather();
      forall i | 0 <= i < |av| ensures av[i] !in records {
        assert av[i] in src.records;
      }
      assert View() == t;
      MergeGathered(av, u);
    }
  }
}

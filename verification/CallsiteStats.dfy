/** The statistics record of one call site, as a value: what recording an event and merging two
    records mean, and why neither the order nor the grouping matters. */
module CallsiteStats {
  import opened Folds
  import opened Sequences

  /** A minimum; `DBL_MAX` marks that there is none yet. */
  datatype Least = Unset | Least(value: real)

  /** The statistics part of `callsite_stats_t`, without the minimum and maximum of RMA sizes. */
  datatype Stats = Stats(
    count: int, time: real, timeSquared: real, maxDur: real, minDur: Least,
    dataSent: real, maxDataSent: real, minDataSent: Least,
    io: real, maxIO: real, minIO: Least, rma: real, messages: int)

  datatype Event = Event(dur: real, sendSize: real, ioSize: real, rmaSize: real)

  const Zero := Stats(0, 0.0, 0.0, 0.0, Unset, 0.0, 0.0, Unset, 0.0, 0.0, Unset, 0.0, 0)

  function Max(x: real, y: real): real {
    if x > y then x else y
  }

  function Min(x: Least, y: Least): Least {
    if x.Unset? then y else if y.Unset? then x else if x.value < y.value then x else y
  }

  /** Counts a message when a threshold is set and reached. */
  function OverThreshold(sendSize: real, threshold: int): int {
    if threshold > -1 && sendSize >= threshold as real then 1 else 0
  }

  function Update(s: Stats, e: Event, threshold: int): Stats {
    Stats(s.count + 1, s.time + e.dur, s.timeSquared + e.dur * e.dur,
          Max(s.maxDur, e.dur), Min(s.minDur, Least(e.dur)),
          s.dataSent + e.sendSize, Max(s.maxDataSent, e.sendSize), Min(s.minDataSent, Least(e.sendSize)),
          s.io + e.ioSize, Max(s.maxIO, e.ioSize), Min(s.minIO, Least(e.ioSize)),
          s.rma + e.rmaSize, s.messages + OverThreshold(e.sendSize, threshold))
  }

  function Merge(s: Stats, t: Stats): Stats {
    Stats(s.count + t.count, s.time + t.time, s.timeSquared + t.timeSquared,
          Max(s.maxDur, t.maxDur), Min(s.minDur, t.minDur),
          s.dataSent + t.dataSent, Max(s.maxDataSent, t.maxDataSent), Min(s.minDataSent, t.minDataSent),
          s.io + t.io, Max(s.maxIO, t.maxIO), Min(s.minIO, t.minIO),
          s.rma + t.rma, s.messages + t.messages)
  }

  /** What every record satisfies: the sums of the asserts, and maxima that start at zero. */
  predicate Sound(s: Stats) {
    s.count >= 0 && s.time >= 0.0 && s.timeSquared >= 0.0 &&
    s.maxDur >= 0.0 && s.maxDataSent >= 0.0 && s.maxIO >= 0.0
  }

  lemma SquareNonNegative(x: real)
    ensures x * x >= 0.0
  {
  }

  lemma UpdateSound(s: Stats, e: Event, threshold: int)
    requires Sound(s) && e.dur >= 0.0
    ensures Sound(Update(s, e, threshold))
  {
    SquareNonNegative(e.dur);
  }

  lemma UpdatesCommute(s: Stats, e: Event, f: Event, threshold: int)
    ensures Update(Update(s, e, threshold), f, threshold) == Update(Update(s, f, threshold), e, threshold)
  {
  }

  /** Recording into a merged record is recording into either part. */
  lemma UpdateMerge(s: Stats, t: Stats, e: Event, threshold: int)
    ensures Update(Merge(s, t), e, threshold) == Merge(s, Update(t, e, threshold))
  {
  }

  lemma MergeLaws(s: Stats, t: Stats, u: Stats)
    ensures Merge(s, t) == Merge(t, s)
    ensures Merge(Merge(s, t), u) == Merge(s, Merge(t, u))
    ensures Sound(s) ==> Merge(Zero, s) == s && Merge(s, Zero) == s
    ensures Sound(s) && Sound(t) ==> Sound(Merge(s, t))
  {
  }

  type SoundStats = s: Stats | Sound(s) witness Zero

  /** Merging as an operation on sound records. */
  function Merged(s: SoundStats, t: SoundStats): SoundStats {
    Merge(s, t)
  }

  lemma MergedIsMonoid()
    ensures Monoid<SoundStats>(Merged, Zero)
  {
    forall s: SoundStats, t: SoundStats, u: SoundStats
      ensures Merged(Merged(s, t), u) == Merged(s, Merged(t, u))
      ensures Merged(Merged(s, t), u) == Merged(Merged(s, u), t)
    {
      MergeLaws(s, t, u);
      MergeLaws(s, u, t);
      MergeLaws(t, u, s);
    }
    forall s: SoundStats ensures Merged(s, Zero) == s && Merged(Zero, s) == s {
      MergeLaws(s, s, s);
    }
  }

  // ---------- Tables ----------

  /** What tells records of one thread apart. */
  datatype SiteKey = SiteKey(op: int, rank: int, pc: seq<int>)

  type Table = map<SiteKey, Stats>

  datatype Entry = Entry(key: SiteKey, event: Event)

  function At(t: Table, k: SiteKey): Stats {
    if k in t then t[k] else Zero
  }

  function Record(t: Table, x: Entry, threshold: int): Table {
    t[x.key := Update(At(t, x.key), x.event, threshold)]
  }

  function RecordAll(t: Table, xs: seq<Entry>, threshold: int): Table
    decreases |xs|
  {
    if xs == [] then t else Record(RecordAll(t, xs[..|xs| - 1], threshold), xs[|xs| - 1], threshold)
  }

  function MergeTables(t: Table, u: Table): Table {
    map k <- t.Keys + u.Keys :: Merge(At(t, k), At(u, k))
  }

  ghost predicate SoundTable(t: Table) {
    forall k <- t :: Sound(t[k])
  }

  predicate Timed(xs: seq<Entry>) {
    forall i :: 0 <= i < |xs| ==> xs[i].event.dur >= 0.0
  }

  lemma {:induction false} RecordAllSound(t: Table, xs: seq<Entry>, threshold: int)
    requires SoundTable(t) && Timed(xs)
    ensures SoundTable(RecordAll(t, xs, threshold))
    decreases |xs|
  {
    if xs != [] {
      var n := |xs| - 1;
      RecordAllSound(t, xs[..n], threshold);
      UpdateSound(At(RecordAll(t, xs[..n], threshold), xs[n].key), xs[n].event, threshold);
    }
  }

  function CountOf(xs: seq<Entry>, k: SiteKey): int
    decreases |xs|
  {
    if xs == [] then 0 else CountOf(xs[..|xs| - 1], k) + if xs[|xs| - 1].key == k then 1 else 0
  }

  function DurOf(e: Event): real {
    e.dur
  }

  function DurSquaredOf(e: Event): real {
    e.dur * e.dur
  }

  function SentOf(e: Event): real {
    e.sendSize
  }

  function IoOf(e: Event): real {
    e.ioSize
  }

  function RmaOf(e: Event): real {
    e.rmaSize
  }

  function SumFor(xs: seq<Entry>, k: SiteKey, f: Event -> real): real
    decreases |xs|
  {
    if xs == [] then 0.0
    else
      var x := xs[|xs| - 1];
      SumFor(xs[..|xs| - 1], k, f) + if x.key == k then f(x.event) else 0.0
  }

  function MessagesFor(xs: seq<Entry>, k: SiteKey, threshold: int): int
    decreases |xs|
  {
    if xs == [] then 0
    else
      var x := xs[|xs| - 1];
      MessagesFor(xs[..|xs| - 1], k, threshold) +
      if x.key == k && threshold > -1 && x.event.sendSize >= threshold as real then 1 else 0
  }

  /** The greatest of zero and the values for a key. */
  ghost predicate IsMax(xs: seq<Entry>, k: SiteKey, f: Event -> real, m: real) {
    && (m >= 0.0 && forall i :: 0 <= i < |xs| && xs[i].key == k ==> f(xs[i].event) <= m)
    && (m != 0.0 ==> exists i :: 0 <= i < |xs| && xs[i].key == k && f(xs[i].event) == m)
  }

  /** The least value for a key, or nothing when there is none. */
  ghost predicate IsMin(xs: seq<Entry>, k: SiteKey, f: Event -> real, m: Least) {
    && (forall i :: 0 <= i < |xs| && xs[i].key == k ==> m.Least? && m.value <= f(xs[i].event))
    && (m.Least? ==> exists i :: 0 <= i < |xs| && xs[i].key == k && f(xs[i].event) == m.value)
  }

  lemma MaxNext(xs: seq<Entry>, x: Entry, k: SiteKey, f: Event -> real, m: real)
    requires IsMax(xs, k, f, m)
    ensures IsMax(xs + [x], k, f, if x.key == k then Max(m, f(x.event)) else m)
  {
    var ys := xs + [x];
    assert ys[|xs|] == x && forall i :: 0 <= i < |xs| ==> ys[i] == xs[i];
    if m != 0.0 {
      var i :| 0 <= i < |xs| && xs[i].key == k && f(xs[i].event) == m;
      assert ys[i].key == k && f(ys[i].event) == m;
    }
  }

  lemma MinNext(xs: seq<Entry>, x: Entry, k: SiteKey, f: Event -> real, m: Least)
    requires IsMin(xs, k, f, m)
    ensures IsMin(xs + [x], k, f, if x.key == k then Min(m, Least(f(x.event))) else m)
  {
    var ys := xs + [x];
    assert ys[|xs|] == x && forall i :: 0 <= i < |xs| ==> ys[i] == xs[i];
    if m.Least? {
      var i :| 0 <= i < |xs| && xs[i].key == k && f(xs[i].event) == m.value;
      assert ys[i].key == k && f(ys[i].event) == m.value;
    }
  }

  /** The counters and sums `s` are those of the events of a key. */
  ghost predicate SumsAre(s: Stats, xs: seq<Entry>, k: SiteKey, threshold: int) {
    && s.count == CountOf(xs, k)
    && s.time == SumFor(xs, k, DurOf) && s.timeSquared == SumFor(xs, k, DurSquaredOf)
    && s.dataSent == SumFor(xs, k, SentOf) && s.io == SumFor(xs, k, IoOf) && s.rma == SumFor(xs, k, RmaOf)
    && s.messages == MessagesFor(xs, k, threshold)
  }

  lemma SumsNext(s: Stats, xs: seq<Entry>, x: Entry, k: SiteKey, threshold: int)
    requires SumsAre(s, xs, k, threshold)
    ensures SumsAre(if x.key == k then Update(s, x.event, threshold) else s, xs + [x], k, threshold)
  {
    assert (xs + [x])[..|xs|] == xs;
  }

  /** What a table says about a key: how many of its events there were, and what they add up to. */
  lemma {:induction false} RecordAllSums(xs: seq<Entry>, k: SiteKey, threshold: int)
    ensures var t := RecordAll(map[], xs, threshold);
            var s := At(t, k);
            && (k in t <==> CountOf(xs, k) > 0) && s.count == CountOf(xs, k)
            && s.time == SumFor(xs, k, DurOf) && s.timeSquared == SumFor(xs, k, DurSquaredOf)
            && s.dataSent == SumFor(xs, k, SentOf) && s.io == SumFor(xs, k, IoOf) && s.rma == SumFor(xs, k, RmaOf)
            && s.messages == MessagesFor(xs, k, threshold)
    ensures CountOf(xs, k) >= 0
    decreases |xs|
  {
    if xs != [] {
      var ys, x := xs[..|xs| - 1], xs[|xs| - 1];
      RecordAllSums(ys, k, threshold);
      SumsNext(At(RecordAll(map[], ys, threshold), k), ys, x, k, threshold);
      assert xs == ys + [x];
    }
  }

  /** What a record says after its first event, field by field. */
  lemma OneEvent(k: SiteKey, e: Event, threshold: int)
    requires e.dur >= 0.0 && e.sendSize >= 0.0 && e.ioSize >= 0.0
    ensures var s := At(RecordAll(map[], [Entry(k, e)], threshold), k);
            && s.count == 1 && s.time == e.dur && s.timeSquared == e.dur * e.dur
            && s.maxDur == e.dur && s.minDur == Least(e.dur)
            && s.dataSent == e.sendSize && s.maxDataSent == e.sendSize && s.minDataSent == Least(e.sendSize)
            && s.io == e.ioSize && s.maxIO == e.ioSize && s.minIO == Least(e.ioSize) && s.rma == e.rmaSize
            && s.messages == (if threshold > -1 && e.sendSize >= threshold as real then 1 else 0)
  {
    assert [Entry(k, e)][..0] == [];
  }

  /** And the shortest and longest, and the least and most data sent and moved. */
  lemma {:induction false} RecordAllExtremes(xs: seq<Entry>, k: SiteKey, threshold: int)
    ensures var s := At(RecordAll(map[], xs, threshold), k);
            && IsMax(xs, k, DurOf, s.maxDur) && IsMin(xs, k, DurOf, s.minDur)
            && IsMax(xs, k, SentOf, s.maxDataSent) && IsMin(xs, k, SentOf, s.minDataSent)
            && IsMax(xs, k, IoOf, s.maxIO) && IsMin(xs, k, IoOf, s.minIO)
    decreases |xs|
  {
    if xs != [] {
      var n := |xs| - 1;
      var s := At(RecordAll(map[], xs[..n], threshold), k);
      RecordAllExtremes(xs[..n], k, threshold);
      assert xs[..n] + [xs[n]] == xs;
      MaxNext(xs[..n], xs[n], k, DurOf, s.maxDur);
      MinNext(xs[..n], xs[n], k, DurOf, s.minDur);
      MaxNext(xs[..n], xs[n], k, SentOf, s.maxDataSent);
      MinNext(xs[..n], xs[n], k, SentOf, s.minDataSent);
      MaxNext(xs[..n], xs[n], k, IoOf, s.maxIO);
      MinNext(xs[..n], xs[n], k, IoOf, s.minIO);
    }
  }

  lemma RecordsCommute(t: Table, x: Entry, y: Entry, threshold: int)
    ensures Record(Record(t, x, threshold), y, threshold) == Record(Record(t, y, threshold), x, threshold)
  {
    if x.key == y.key {
      UpdatesCommute(At(t, x.key), x.event, y.event, threshold);
    }
  }

  /** An entry may as well have been recorded last. */
  lemma {:induction false} RecordLast(t: Table, xs: seq<Entry>, i: nat, threshold: int)
    requires i < |xs|
    ensures RecordAll(t, xs, threshold) == Record(RecordAll(t, Remove(xs, i), threshold), xs[i], threshold)
    decreases |xs|
  {
    var n := |xs| - 1;
    RemoveInit(xs, i);
    if i < n {
      var ys := Remove(xs, i);
      RecordLast(t, xs[..n], i, threshold);
      assert Remove(xs[..n], i) == ys[..|ys| - 1] && ys[|ys| - 1] == xs[n];
      RecordsCommute(RecordAll(t, ys[..|ys| - 1], threshold), xs[i], xs[n], threshold);
    }
  }

  /** The order in which events arrive does not matter. */
  lemma {:induction false} RecordAllPermutation(t: Table, xs: seq<Entry>, ys: seq<Entry>, threshold: int)
    requires multiset(xs) == multiset(ys)
    ensures RecordAll(t, xs, threshold) == RecordAll(t, ys, threshold)
    decreases |xs|
  {
    SameLength(xs, ys);
    if xs != [] {
      var i := Partner(xs, ys);
      RecordLast(t, ys, i, threshold);
      RecordAllPermutation(t, xs[..|xs| - 1], Remove(ys, i), threshold);
    }
  }

  /** Merging in the table of some events is recording these events. */
  lemma {:induction false} MergeIsRecording(t: Table, xs: seq<Entry>, threshold: int)
    requires SoundTable(t) && Timed(xs)
    ensures MergeTables(t, RecordAll(map[], xs, threshold)) == RecordAll(t, xs, threshold)
    decreases |xs|
  {
    if xs == [] {
      assert MergeTables(t, map[]) == t by {
        forall k | k in t ensures Merge(t[k], Zero) == t[k] { MergeLaws(t[k], Zero, Zero); }
      }
    } else {
      var n := |xs| - 1;
      var x, u := xs[n], RecordAll(map[], xs[..n], threshold);
      MergeIsRecording(t, xs[..n], threshold);
      UpdateMerge(At(t, x.key), At(u, x.key), x.event, threshold);
      RecordMerged(t, u, x, threshold);
    }
  }

  lemma MergedAt(t: Table, u: Table, k: SiteKey)
    ensures At(MergeTables(t, u), k) == Merge(At(t, k), At(u, k))
  {
    if k !in t.Keys + u.Keys { ZeroMerge(); }
  }

  lemma ZeroMerge()
    ensures Merge(Zero, Zero) == Zero
  {
    assert Max(0.0, 0.0) == 0.0;
  }

  lemma AtRecord(t: Table, x: Entry, threshold: int, k: SiteKey)
    ensures At(Record(t, x, threshold), k) == if k == x.key then Update(At(t, k), x.event, threshold) else At(t, k)
  {
  }

  lemma RecordMergedAt(t: Table, u: Table, x: Entry, threshold: int, k: SiteKey)
    ensures At(MergeTables(t, Record(u, x, threshold)), k) == At(Record(MergeTables(t, u), x, threshold), k)
  {
    MergedAt(t, u, k);
    MergedAt(t, Record(u, x, threshold), k);
    AtRecord(u, x, threshold, k);
    AtRecord(MergeTables(t, u), x, threshold, k);
    UpdateMerge(At(t, k), At(u, k), x.event, threshold);
  }

  lemma {:induction false} RecordMerged(t: Table, u: Table, x: Entry, threshold: int)
    ensures MergeTables(t, Record(u, x, threshold)) == Record(MergeTables(t, u), x, threshold)
  {
    var l, r := MergeTables(t, Record(u, x, threshold)), Record(MergeTables(t, u), x, threshold);
    assert l.Keys == r.Keys;
    forall k | k in l.Keys ensures l[k] == r[k] {
      RecordMergedAt(t, u, x, threshold, k);
      assert At(l, k) == l[k] && At(r, k) == r[k];
    }
  }

  // ---------- Several threads ----------

  function MergeAll(tables: seq<Table>): Table {
    if tables == [] then map[] else MergeTables(MergeAll(tables[..|tables| - 1]), tables[|tables| - 1])
  }

  lemma {:induction false} RecordAllConcat(t: Table, xs: seq<Entry>, ys: seq<Entry>, threshold: int)
    ensures RecordAll(t, xs + ys, threshold) == RecordAll(RecordAll(t, xs, threshold), ys, threshold)
    decreases |ys|
  {
    if ys == [] {
      assert xs + ys == xs;
    } else {
      var n := |ys| - 1;
      assert (xs + ys)[..|xs| + n] == xs + ys[..n];
      RecordAllConcat(t, xs, ys[..n], threshold);
    }
  }

  function Tables(events: seq<seq<Entry>>, threshold: int): seq<Table> {
    seq(|events|, i requires 0 <= i < |events| => RecordAll(map[], events[i], threshold))
  }

  lemma {:induction false} MergeAllIsRecording(events: seq<seq<Entry>>, threshold: int)
    requires forall i :: 0 <= i < |events| ==> Timed(events[i])
    ensures MergeAll(Tables(events, threshold)) == RecordAll(map[], Concat(events), threshold)
    ensures Timed(Concat(events))
  {
    if events != [] {
      var n := |events| - 1;
      MergeAllIsRecording(events[..n], threshold);
      assert Tables(events, threshold)[..n] == Tables(events[..n], threshold);
      RecordAllSound(map[], Concat(events[..n]), threshold);
      MergeIsRecording(RecordAll(map[], Concat(events[..n]), threshold), events[n], threshold);
      RecordAllConcat(map[], Concat(events[..n]), events[n], threshold);
    }
  }

  /** Merging the tables of all threads gives what one table would hold that had been fed every
      thread's events, in any interleaving. */
  lemma {:induction false} MergeIsOneTable(events: seq<seq<Entry>>, all: seq<Entry>, threshold: int)
    requires forall i :: 0 <= i < |events| ==> Timed(events[i])
    requires multiset(all) == multiset(Concat(events))
    ensures MergeAll(Tables(events, threshold)) == RecordAll(map[], all, threshold)
  {
    MergeAllIsRecording(events, threshold);
    RecordAllPermutation(map[], all, Concat(events), threshold);
  }
}

/** What the threads of a rank do to its statistics, step by step in any interleaving, and which events
    are due to be recorded. */
module Trails {
  import opened CallsiteStats
  import opened Sequences
  import opened ThreadStats

  type Tid = int

  /** The steps at which a thread touches the statistics, and what is done with all of them together. */
  datatype Step =
    | Entering(t: Tid)                                            // before the call proper
    | Leaving(t: Tid)                                             // behind it
    | Concluding(t: Tid, x: Entry, enabled: bool, still: bool)    // the end of the wrapper
    | Ending(t: Tid)                                              // the thread itself ends
    | Merging
    | Resetting

  datatype Noted = Noted(t: Tid, x: Entry)

  /** The counters of the threads, and what was due since the last reset. */
  datatype Trail = Trail(depth: map<Tid, int>, log: seq<Noted>)

  const Start := Trail(map[], [])

  function Depth(s: Trail, t: Tid): int {
    if t in s.depth then s.depth[t] else 0
  }

  function Notes(t: Tid, xs: seq<Entry>): seq<Noted> {
    seq(|xs|, i requires 0 <= i < |xs| => Noted(t, xs[i]))
  }

  /** Without several threads there is one counter for all. */
  function Who(t: Tid, multi: bool): Tid {
    if multi then t else 0
  }

  function After(s: Trail, op: Step, multi: bool): Trail {
    match op
    case Entering(t) => s.(depth := s.depth[Who(t, multi) := Depth(s, Who(t, multi)) - 1])
    case Leaving(t) => s.(depth := s.depth[Who(t, multi) := Depth(s, Who(t, multi)) + 1])
    case Concluding(t, x, enabled, still) =>
      if Depth(s, Who(t, multi)) == 0 then s.(log := s.log + Notes(t, Due(x, enabled, still))) else s
    case Ending(t) => if multi then s.(depth := s.depth - {t}) else s
    case Merging => s
    case Resetting => s.(log := [])
  }

  function AfterAll(s: Trail, ops: seq<Step>, multi: bool): Trail
    decreases |ops|
  {
    if ops == [] then s else After(AfterAll(s, ops[..|ops| - 1], multi), ops[|ops| - 1], multi)
  }

  function TrailOf(ops: seq<Step>, multi: bool): Trail {
    AfterAll(Start, ops, multi)
  }

  function EntryOf(n: Noted): Entry {
    n.x
  }

  function Entries(log: seq<Noted>): seq<Entry> {
    Map(log, EntryOf)
  }

  lemma AfterNext(ops: seq<Step>, i: nat, multi: bool)
    requires i < |ops|
    ensures TrailOf(ops[..i + 1], multi) == After(TrailOf(ops[..i], multi), ops[i], multi)
  {
    assert ops[..i + 1][..i] == ops[..i];
  }

  lemma EntriesNotes(log: seq<Noted>, t: Tid, xs: seq<Entry>)
    ensures Entries(log + Notes(t, xs)) == Entries(log) + xs
  {
    var all := log + Notes(t, xs);
    forall i | 0 <= i < |all| ensures Entries(all)[i] == (Entries(log) + xs)[i] {
      assert Entries(all)[i] == EntryOf(all[i]);
      assert i < |log| ==> Entries(log)[i] == EntryOf(log[i]);
    }
  }

  /** No event that is due has a negative duration. */
  lemma {:induction false} DueTimed(ops: seq<Step>, multi: bool)
    ensures Timed(Entries(TrailOf(ops, multi).log))
    decreases |ops|
  {
    if ops != [] {
      var n := |ops| - 1;
      var s, op := TrailOf(ops[..n], multi), ops[n];
      DueTimed(ops[..n], multi);
      if op.Concluding? {
        EntriesNotes(s.log, op.t, Due(op.x, op.enabled, op.still));
      }
    }
  }

  // ---------- What is due, counted ----------

  /** How often a thread has left calls more than entered them, since it began. */
  function Balance(ops: seq<Step>, t: Tid, multi: bool): int
    decreases |ops|
  {
    if ops == [] then 0
    else
      var b := Balance(ops[..|ops| - 1], t, multi);
      match ops[|ops| - 1]
      case Entering(u) => if u == t || !multi then b - 1 else b
      case Leaving(u) => if u == t || !multi then b + 1 else b
      case Ending(u) => if u == t && multi then 0 else b
      case _ => b
  }

  /** How many calls under a key have ended since the last reset that were outermost, with profiling enabled
      both times it was asked, and took no negative time. */
  function Ended(ops: seq<Step>, multi: bool, k: SiteKey): nat
    decreases |ops|
  {
    if ops == [] then 0
    else
      var rest := ops[..|ops| - 1];
      match ops[|ops| - 1]
      case Concluding(t, x, enabled, still) =>
        if Balance(rest, t, multi) == 0 && x.key == k && enabled && still && x.event.dur >= 0.0
        then Ended(rest, multi, k) + 1 else Ended(rest, multi, k)
      case Resetting => 0
      case _ => Ended(rest, multi, k)
  }

  /** Their events, in order. */
  function EventsEnded(ops: seq<Step>, multi: bool): seq<Entry>
    decreases |ops|
  {
    if ops == [] then []
    else
      var rest := ops[..|ops| - 1];
      match ops[|ops| - 1]
      case Concluding(t, x, enabled, still) =>
        if Balance(rest, t, multi) == 0 && enabled && still && x.event.dur >= 0.0
        then EventsEnded(rest, multi) + [x] else EventsEnded(rest, multi)
      case Resetting => []
      case _ => EventsEnded(rest, multi)
  }

  lemma {:induction false} DepthIsBalance(ops: seq<Step>, t: Tid, multi: bool)
    ensures Depth(TrailOf(ops, multi), Who(t, multi)) == Balance(ops, t, multi)
    decreases |ops|
  {
    if ops != [] {
      DepthIsBalance(ops[..|ops| - 1], t, multi);
    }
  }

  lemma CountNext(xs: seq<Entry>, x: Entry, k: SiteKey)
    ensures CountOf(xs + [x], k) == CountOf(xs, k) + if x.key == k then 1 else 0
  {
    assert (xs + [x])[..|xs|] == xs;
  }

  /** Exactly these are due. */
  lemma {:induction false} DueIsEnded(ops: seq<Step>, multi: bool)
    ensures Entries(TrailOf(ops, multi).log) == EventsEnded(ops, multi)
    decreases |ops|
  {
    if ops != [] {
      var n := |ops| - 1;
      var s, op := TrailOf(ops[..n], multi), ops[n];
      DueIsEnded(ops[..n], multi);
      if op.Concluding? {
        DepthIsBalance(ops[..n], op.t, multi);
        EntriesNotes(s.log, op.t, Due(op.x, op.enabled, op.still));
        assert Entries(s.log) + [] == Entries(s.log);
      }
    }
  }

  lemma {:induction false} EndedCounts(ops: seq<Step>, multi: bool, k: SiteKey)
    ensures CountOf(EventsEnded(ops, multi), k) == Ended(ops, multi, k)
    decreases |ops|
  {
    if ops != [] {
      var n := |ops| - 1;
      EndedCounts(ops[..n], multi, k);
      if ops[n].Concluding? {
        CountNext(EventsEnded(ops[..n], multi), ops[n].x, k);
      }
    }
  }

  /** So the table of what is due counts exactly these calls under every key. */
  lemma DueTable(ops: seq<Step>, multi: bool, k: SiteKey, threshold: int)
    ensures At(RecordAll(map[], Entries(TrailOf(ops, multi).log), threshold), k).count == Ended(ops, multi, k)
  {
    DueIsEnded(ops, multi);
    EndedCounts(ops, multi, k);
    RecordAllSums(Entries(TrailOf(ops, multi).log), k, threshold);
  }

  // ---------- Each thread by itself ----------

  predicate IsOf(t: Tid, op: Step) {
    match op
    case Entering(u) => u == t
    case Leaving(u) => u == t
    case Concluding(u, _, _, _) => u == t
    case Ending(u) => u == t
    case Merging => false
    case Resetting => true
  }

  function OfThread(t: Tid): Step -> bool {
    op => IsOf(t, op)
  }

  function NotedBy(t: Tid): Noted -> bool {
    (n: Noted) => n.t == t
  }

  /** The steps of one thread, and the resets. */
  function Project(ops: seq<Step>, t: Tid): seq<Step> {
    Filter(ops, OfThread(t))
  }

  function Part(log: seq<Noted>, t: Tid): seq<Noted> {
    Filter(log, NotedBy(t))
  }

  lemma PartNotes(log: seq<Noted>, u: Tid, xs: seq<Entry>, t: Tid)
    requires |xs| <= 1
    ensures Part(log + Notes(u, xs), t) == if u == t then Part(log, t) + Notes(u, xs) else Part(log, t)
  {
    if xs == [] {
      assert log + Notes(u, xs) == log;
      assert Part(log, t) + Notes(u, xs) == Part(log, t);
    } else {
      assert Notes(u, xs) == [Noted(u, xs[0])];
      FilterNext(log, Noted(u, xs[0]), NotedBy(t));
    }
  }

  /** Other threads do not matter to the counter of a thread, nor to what is due for it. */
  lemma {:induction false} ByThread(ops: seq<Step>, t: Tid)
    ensures Depth(TrailOf(ops, true), t) == Depth(TrailOf(Project(ops, t), true), t)
    ensures Part(TrailOf(ops, true).log, t) == TrailOf(Project(ops, t), true).log
    decreases |ops|
  {
    if ops != [] {
      var n := |ops| - 1;
      ByThread(ops[..n], t);
      assert ops[..n] + [ops[n]] == ops;
      FilterNext(ops[..n], ops[n], OfThread(t));
      ThreadStep(TrailOf(ops[..n], true), TrailOf(Project(ops[..n], t), true), ops[n], t);
      if IsOf(t, ops[n]) {
        assert Project(ops, t)[..|Project(ops, t)| - 1] == Project(ops[..n], t);
      }
    }
  }

  lemma ThreadStep(s: Trail, own: Trail, op: Step, t: Tid)
    requires Depth(s, t) == Depth(own, t) && Part(s.log, t) == own.log
    ensures var own' := if IsOf(t, op) then After(own, op, true) else own;
            Depth(After(s, op, true), t) == Depth(own', t) && Part(After(s, op, true).log, t) == own'.log
  {
    if op.Concluding? {
      PartNotes(s.log, op.t, Due(op.x, op.enabled, op.still), t);
    }
  }

  // ---------- Whole calls ----------

  /** The steps of a call of thread `t`, with all calls inside. */
  function Trace(t: Tid, c: Call): seq<Step>
    decreases c, 1
  {
    [Entering(t)] + TraceIn(t, c, c.nested) + [Leaving(t)] + [Concluding(t, c.entry, c.enabled, c.still)]
  }

  function TraceIn(t: Tid, c: Call, nested: seq<Call>): seq<Step>
    requires forall i :: 0 <= i < |nested| ==> nested[i] in c.nested
    decreases c, 0, |nested|
  {
    if nested == [] then []
    else
      var n := |nested| - 1;
      assert nested[n] in c.nested;
      TraceIn(t, c, nested[..n]) + Trace(t, nested[n])
  }

  lemma {:induction false} AfterConcat(s: Trail, a: seq<Step>, b: seq<Step>, multi: bool)
    ensures AfterAll(s, a + b, multi) == AfterAll(AfterAll(s, a, multi), b, multi)
    decreases |b|
  {
    if b == [] {
      assert a + b == a;
    } else {
      var n := |b| - 1;
      assert (a + b)[..|a| + n] == a + b[..n];
      AfterConcat(s, a, b[..n], multi);
    }
  }

  lemma AfterOne(s: Trail, op: Step, multi: bool)
    ensures AfterAll(s, [op], multi) == After(s, op, multi)
  {
    assert [op][..0] == [];
  }

  /** What a stretch of steps of thread `t` has added, with its counter back where it was. */
  ghost predicate Adds(s: Trail, s': Trail, t: Tid, xs: seq<Entry>) {
    Depth(s', t) == Depth(s, t) && s'.log == s.log + Notes(t, xs)
  }

  lemma AddsNext(s: Trail, s1: Trail, s2: Trail, t: Tid, xs: seq<Entry>, ys: seq<Entry>)
    requires Adds(s, s1, t, xs) && Adds(s1, s2, t, ys)
    ensures Adds(s, s2, t, xs + ys)
  {
    assert Notes(t, xs + ys) == Notes(t, xs) + Notes(t, ys);
  }

  /** A call traced step by step is due exactly what the bracket around it records. */
  lemma {:induction false} TraceMeans(s: Trail, t: Tid, c: Call)
    ensures Adds(s, AfterAll(s, Trace(t, c), true), t, Recorded(c, Depth(s, t)))
    decreases c, 1
  {
    var s1 := After(s, Entering(t), true);
    var s2 := AfterAll(s1, TraceIn(t, c, c.nested), true);
    var s3 := After(s2, Leaving(t), true);
    var last := Concluding(t, c.entry, c.enabled, c.still);
    AfterOne(s, Entering(t), true);
    AfterConcat(s, [Entering(t)], TraceIn(t, c, c.nested), true);
    TraceInMeans(s1, t, c, c.nested);
    AfterOne(s2, Leaving(t), true);
    AfterConcat(s, [Entering(t)] + TraceIn(t, c, c.nested), [Leaving(t)], true);
    AfterOne(s3, last, true);
    AfterConcat(s, [Entering(t)] + TraceIn(t, c, c.nested) + [Leaving(t)], [last], true);
    AddsNext(s, s3, After(s3, last, true), t, RecordedIn(c, c.nested, Depth(s, t) - 1),
             if Depth(s, t) == 0 then Own(c) else []);
  }

  lemma {:induction false} TraceInMeans(s: Trail, t: Tid, c: Call, nested: seq<Call>)
    requires forall i :: 0 <= i < |nested| ==> nested[i] in c.nested
    ensures Adds(s, AfterAll(s, TraceIn(t, c, nested), true), t, RecordedIn(c, nested, Depth(s, t)))
    decreases c, 0, |nested|
  {
    if nested != [] {
      var n := |nested| - 1;
      assert nested[n] in c.nested;
      var s1 := AfterAll(s, TraceIn(t, c, nested[..n]), true);
      TraceInMeans(s, t, c, nested[..n]);
      TraceMeans(s1, t, nested[n]);
      AfterConcat(s, TraceIn(t, c, nested[..n]), Trace(t, nested[n]), true);
      AddsNext(s, s1, AfterAll(s1, Trace(t, nested[n]), true), t, RecordedIn(c, nested[..n], Depth(s, t)),
               Recorded(nested[n], Depth(s, t)));
    }
  }

  /** One outermost call after the other. */
  function Traces(t: Tid, cs: seq<Call>): seq<Step>
    decreases |cs|
  {
    if cs == [] then [] else Traces(t, cs[..|cs| - 1]) + Trace(t, cs[|cs| - 1])
  }

  function OwnAll(cs: seq<Call>): seq<Entry>
    decreases |cs|
  {
    if cs == [] then [] else OwnAll(cs[..|cs| - 1]) + Own(cs[|cs| - 1])
  }

  lemma {:induction false} TracesMean(s: Trail, t: Tid, cs: seq<Call>)
    requires Depth(s, t) == 0
    ensures Adds(s, AfterAll(s, Traces(t, cs), true), t, OwnAll(cs))
    decreases |cs|
  {
    if cs != [] {
      var n := |cs| - 1;
      var s1 := AfterAll(s, Traces(t, cs[..n]), true);
      TracesMean(s, t, cs[..n]);
      TraceMeans(s1, t, cs[n]);
      OutermostOnly(cs[n]);
      AfterConcat(s, Traces(t, cs[..n]), Trace(t, cs[n]), true);
      AddsNext(s, s1, AfterAll(s1, Trace(t, cs[n]), true), t, OwnAll(cs[..n]), Own(cs[n]));
    }
  }

  // ---------- All threads together ----------

  function CallsOf(calls: map<Tid, seq<Call>>, t: Tid): seq<Call> {
    if t in calls then calls[t] else []
  }

  /** `ops` interleaves the calls of all threads, step by step, in some way. */
  ghost predicate Interleaves(ops: seq<Step>, calls: map<Tid, seq<Call>>) {
    forall t :: Project(ops, t) == Traces(t, CallsOf(calls, t))
  }

  function LogWith(log: seq<seq<Entry>>, i: nat, xs: seq<Entry>): seq<seq<Entry>>
    requires i <= |log|
  {
    if i < |log| then log[i := log[i] + xs] else log + [xs]
  }

  lemma LogConcat(log: seq<seq<Entry>>, i: nat, xs: seq<Entry>)
    requires i <= |log|
    ensures multiset(Concat(LogWith(log, i, xs))) == multiset(Concat(log)) + multiset(xs)
  {
    var log' := LogWith(log, i, xs);
    if i < |log| {
      ConcatSplit(log, i);
      ConcatSplit(log', i);
      assert log'[..i] == log[..i] && log'[i + 1..] == log[i + 1..];
      OneMore(Concat(log[..i]), log[i], xs, Concat(log[i + 1..]));
    } else {
      assert log'[..i] == log;
    }
  }

  lemma OneMore(a: seq<Entry>, b: seq<Entry>, xs: seq<Entry>, d: seq<Entry>)
    ensures multiset(a + (b + xs) + d) == multiset(a + b + d) + multiset(xs)
  {
  }

  function Parts(log: seq<Noted>, ts: seq<Tid>): seq<seq<Entry>> {
    seq(|ts|, i requires 0 <= i < |ts| => Entries(Part(log, ts[i])))
  }

  lemma PartsNext(log: seq<Noted>, n: Noted, ts: seq<Tid>, k: nat)
    requires Distinct(ts) && k < |ts| && ts[k] == n.t
    ensures Parts(log + [n], ts) == LogWith(Parts(log, ts), k, [n.x])
  {
    var u, v := Parts(log + [n], ts), LogWith(Parts(log, ts), k, [n.x]);
    forall i | 0 <= i < |ts| ensures u[i] == v[i] {
      FilterNext(log, n, NotedBy(ts[i]));
      assert NotedBy(ts[i])(n) == (i == k);
      if i == k { MapNext(Part(log, n.t), n, EntryOf); }
    }
    assert u == v;
  }

  /** The parts of the threads together are everything. */
  lemma {:induction false} PartsAreAll(log: seq<Noted>, ts: seq<Tid>)
    requires Distinct(ts) && forall i :: 0 <= i < |log| ==> log[i].t in ts
    ensures multiset(Concat(Parts(log, ts))) == multiset(Entries(log))
    decreases |log|
  {
    if log == [] {
      ConcatEmpty(Parts(log, ts));
    } else {
      var m := |log| - 1;
      var n := log[m];
      assert log[..m] + [n] == log;
      assert forall i :: 0 <= i < m ==> log[..m][i] == log[i];
      PartsAreAll(log[..m], ts);
      var k := Find(ts, n.t);
      PartsNext(log[..m], n, ts, k);
      LogConcat(Parts(log[..m], ts), k, [n.x]);
      MapNext(log[..m], n, EntryOf);
    }
  }

  lemma InterleavedPart(ops: seq<Step>, calls: map<Tid, seq<Call>>, t: Tid)
    requires Interleaves(ops, calls)
    ensures Part(TrailOf(ops, true).log, t) == Notes(t, OwnAll(CallsOf(calls, t)))
  {
    ByThread(ops, t);
    TracesMean(Start, t, CallsOf(calls, t));
    assert [] + Notes(t, OwnAll(CallsOf(calls, t))) == Notes(t, OwnAll(CallsOf(calls, t)));
  }

  /** Whatever the interleaving, even of steps inside calls, the outermost calls are due and nothing else:
      for each thread its own, in order. */
  lemma InterleavedCalls(ops: seq<Step>, calls: map<Tid, seq<Call>>, ts: seq<Tid>, threshold: int)
    requires Interleaves(ops, calls) && Distinct(ts) && forall t :: t in calls <==> t in ts
    ensures var each := seq(|ts|, i requires 0 <= i < |ts| => OwnAll(CallsOf(calls, ts[i])));
            RecordAll(map[], Entries(TrailOf(ops, true).log), threshold) == RecordAll(map[], Concat(each), threshold)
  {
    var log := TrailOf(ops, true).log;
    var each := seq(|ts|, i requires 0 <= i < |ts| => OwnAll(CallsOf(calls, ts[i])));
    forall i | 0 <= i < |log| ensures log[i].t in ts {
      var t := log[i].t;
      InterleavedPart(ops, calls, t);
      FilterMembers(log, NotedBy(t), log[i]);
    }
    forall i | 0 <= i < |ts| ensures Parts(log, ts)[i] == each[i] {
      InterleavedPart(ops, calls, ts[i]);
      EntriesNotes([], ts[i], each[i]);
      assert [] + Notes(ts[i], each[i]) == Notes(ts[i], each[i]);
    }
    assert Parts(log, ts) == each;
    PartsAreAll(log, ts);
    RecordAllPermutation(map[], Entries(log), Concat(each), threshold);
  }

  /** Of some outermost calls, those that count under a key. */
  function Counted(cs: seq<Call>, k: SiteKey): nat
    decreases |cs|
  {
    if cs == [] then 0
    else
      var c := cs[|cs| - 1];
      Counted(cs[..|cs| - 1], k) +
      if c.entry.key == k && c.enabled && c.still && c.entry.event.dur >= 0.0 then 1 else 0
  }

  function CountedAll(calls: map<Tid, seq<Call>>, ts: seq<Tid>, k: SiteKey): nat
    decreases |ts|
  {
    if ts == [] then 0
    else CountedAll(calls, ts[..|ts| - 1], k) + Counted(CallsOf(calls, ts[|ts| - 1]), k)
  }

  lemma {:induction false} CountConcat(xs: seq<Entry>, ys: seq<Entry>, k: SiteKey)
    ensures CountOf(xs + ys, k) == CountOf(xs, k) + CountOf(ys, k)
    decreases |ys|
  {
    if ys == [] {
      assert xs + ys == xs;
    } else {
      var n := |ys| - 1;
      assert (xs + ys)[..|xs| + n] == xs + ys[..n];
      CountConcat(xs, ys[..n], k);
    }
  }

  lemma {:induction false} OwnAllCounts(cs: seq<Call>, k: SiteKey)
    ensures CountOf(OwnAll(cs), k) == Counted(cs, k)
    decreases |cs|
  {
    if cs != [] {
      var n := |cs| - 1;
      OwnAllCounts(cs[..n], k);
      CountConcat(OwnAll(cs[..n]), Own(cs[n]), k);
      OutermostOnly(cs[n]);
      OutermostCounts(cs[n], k);
    }
  }

  lemma {:induction false} EachCounts(calls: map<Tid, seq<Call>>, ts: seq<Tid>, k: SiteKey)
    ensures var each := seq(|ts|, i requires 0 <= i < |ts| => OwnAll(CallsOf(calls, ts[i])));
            CountOf(Concat(each), k) == CountedAll(calls, ts, k)
    decreases |ts|
  {
    if ts != [] {
      var n := |ts| - 1;
      var each := seq(|ts|, i requires 0 <= i < |ts| => OwnAll(CallsOf(calls, ts[i])));
      EachCounts(calls, ts[..n], k);
      assert each[..n] == seq(n, i requires 0 <= i < n => OwnAll(CallsOf(calls, ts[..n][i])));
      CountConcat(Concat(each[..n]), each[n], k);
      OwnAllCounts(CallsOf(calls, ts[n]), k);
    }
  }

  /** However the calls interleave, each that counts is counted once under its key, and nothing else is. */
  lemma InterleavedCounts(ops: seq<Step>, calls: map<Tid, seq<Call>>, ts: seq<Tid>, threshold: int, k: SiteKey)
    requires Interleaves(ops, calls) && Distinct(ts) && forall t :: t in calls <==> t in ts
    ensures At(RecordAll(map[], Entries(TrailOf(ops, true).log), threshold), k).count == CountedAll(calls, ts, k)
  {
    var each := seq(|ts|, i requires 0 <= i < |ts| => OwnAll(CallsOf(calls, ts[i])));
    InterleavedCalls(ops, calls, ts, threshold);
    EachCounts(calls, ts, k);
    RecordAllSums(Concat(each), k, threshold);
  }
}

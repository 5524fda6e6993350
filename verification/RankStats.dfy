/** All threads of a rank, and their merging into the table of the rank. */
module RankStats {
  import opened CallsiteStats
  import opened Sequences
  import opened ThreadStats
  import opened Trails

  /** What the threads' tables become when entries are recorded for thread `i`, which may be new. */
  function RecordedFor(views: seq<Table>, i: nat, xs: seq<Entry>, threshold: int): seq<Table>
    requires i <= |views|
  {
    var v := if i < |views| then views else views + [map[]];
    v[i := RecordAll(v[i], xs, threshold)]
  }

  /** Each table holds the events logged for its thread, and together these are the events `all`. */
  ghost predicate Logged(views: seq<Table>, log: seq<seq<Entry>>, all: seq<Entry>, threshold: int) {
    && views == Tables(log, threshold) && multiset(Concat(log)) == multiset(all)
    && forall i :: 0 <= i < |log| ==> Timed(log[i])
  }

  lemma LoggedMerge(views: seq<Table>, log: seq<seq<Entry>>, all: seq<Entry>, threshold: int)
    requires Logged(views, log, all, threshold)
    ensures MergeAll(views) == RecordAll(map[], all, threshold)
  {
    MergeIsOneTable(log, all, threshold);
  }

  lemma TablesNext(log: seq<seq<Entry>>, i: nat, xs: seq<Entry>, threshold: int)
    requires i <= |log|
    ensures RecordedFor(Tables(log, threshold), i, xs, threshold) == Tables(LogWith(log, i, xs), threshold)
  {
    var u, v := RecordedFor(Tables(log, threshold), i, xs, threshold), Tables(LogWith(log, i, xs), threshold);
    if i < |log| {
      RecordAllConcat(map[], log[i], xs, threshold);
    }
    assert |u| == |v| && u[i] == v[i];
    assert forall j :: 0 <= j < |u| && j != i ==> u[j] == v[j];
  }

  lemma LoggedNext(views: seq<Table>, log: seq<seq<Entry>>, all: seq<Entry>, threshold: int, i: nat, xs: seq<Entry>)
    requires Logged(views, log, all, threshold) && i <= |views| && Timed(xs)
    ensures Logged(RecordedFor(views, i, xs, threshold), LogWith(log, i, xs), all + xs, threshold)
  {
    LogConcat(log, i, xs);
    TablesNext(log, i, xs, threshold);
    var log' := LogWith(log, i, xs);
    forall j | 0 <= j < |log'| ensures Timed(log'[j]) {
      assert j < |log| ==> Timed(log[j]);
    }
  }

  lemma ConcludedFor(views: seq<Table>, i: nat, x: Entry, enabled: bool, still: bool, threshold: int)
    requires i < |views|
    ensures RecordedFor(views, i, [], threshold) == views
    ensures RecordedFor(views, i, Due(x, enabled, still), threshold) ==
            if enabled && still && x.event.dur >= 0.0 then views[i := Record(views[i], x, threshold)] else views
  {
    RecordOne(views[i], x, threshold);
  }

  function Emptied(log: seq<seq<Entry>>): seq<seq<Entry>> {
    seq(|log|, i => [])
  }

  lemma LoggedReset(views: seq<Table>, log: seq<seq<Entry>>, threshold: int)
    requires |views| == |log| && forall i :: 0 <= i < |views| ==> views[i] == map[]
    ensures Logged(views, Emptied(log), [], threshold)
  {
    ConcatEmpty(Emptied(log));
    assert views == Tables(Emptied(log), threshold);
  }

  /** `mpiPi_mt_stat_t`: the table of the rank and, when several threads may call MPI, the tables of
      all threads in the order in which they joined. */
  class MtStats {
    const multiThreaded: bool
    const rank_stats: ThreadStats
    var tls_list: seq<ThreadStats>
    var tls_this: map<Tid, ThreadStats>
    ghost var footprint: set<object>

    /** What belongs to the threads is in `footprint`, each thing to one thread. */
    ghost predicate ThreadsOk()
      reads this`tls_list, this`tls_this, this`footprint, footprint
    {
      && (forall i :: 0 <= i < |tls_list| ==>
            tls_list[i] in footprint && (forall r <- tls_list[i].records :: r in footprint) && tls_list[i].Valid())
      && (forall i, j :: 0 <= i < j < |tls_list| ==>
            tls_list[i] != tls_list[j] && tls_list[i].records !! tls_list[j].records)
      && HandlesOk()
    }

    /** Each thread has its own handle, which is in the list. */
    ghost predicate HandlesOk()
      reads this`tls_list, this`tls_this
    {
      && (forall t <- tls_this :: tls_this[t] in tls_list)
      && (forall t, u :: t in tls_this && u in tls_this && t != u ==> tls_this[t] != tls_this[u])
    }

    /** What belongs to the rank is not. */
    ghost predicate RankOk()
      reads this`footprint, rank_stats, rank_stats.records
    {
      && this !in footprint && rank_stats !in footprint && rank_stats.Valid()
      && forall r <- rank_stats.records :: r !in footprint
    }

    ghost predicate Valid()
      reads this, rank_stats, rank_stats.records, footprint
    {
      ThreadsOk() && RankOk()
    }

    ghost function Views(): seq<Table>
      requires ThreadsOk()
      reads this, footprint
    {
      seq(|tls_list|, i requires 0 <= i < |tls_list| && ThreadsOk() reads this, footprint => tls_list[i].View())
    }

    lemma ViewsAre(views: seq<Table>)
      requires ThreadsOk() && |views| == |tls_list|
      requires forall j :: 0 <= j < |tls_list| ==> tls_list[j].View() == views[j]
      ensures Views() == views
    {
    }

    /** The counters are as the steps so far have left them. */
    ghost predicate Counts(s: Trail)
      requires ThreadsOk()
      reads this`tls_list, this`tls_this, this`footprint, footprint, rank_stats`disabled
    {
      if multiThreaded then s.depth.Keys <= tls_this.Keys && forall t <- tls_this :: tls_this[t].disabled == Depth(s, t)
      else rank_stats.disabled == Depth(s, 0)
    }

    constructor (multiThreaded: bool)
      ensures Valid() && Counts(Start) && fresh(rank_stats) && footprint == {} && rank_stats.records == {}
      ensures this.multiThreaded == multiThreaded && tls_list == [] && tls_this == map[]
      ensures rank_stats.View() == map[]
    {
      this.multiThreaded := multiThreaded;
      rank_stats := new ThreadStats();
      tls_list, tls_this, footprint := [], map[], {};
    }

    /** The statistics of the calling thread `t`; a thread not seen before joins the list. */
    method GetTls(t: Tid, ghost s: Trail) returns (hndl: ThreadStats)
      requires Valid() && Counts(s)
      modifies this
      ensures Valid() && fresh(footprint - old(footprint)) && Counts(s)
      ensures !multiThreaded ==> hndl == rank_stats && tls_list == old(tls_list) && Views() == old(Views())
      ensures !multiThreaded ==> tls_this == old(tls_this)
      ensures multiThreaded && t in old(tls_this) ==>
        hndl == old(tls_this)[t] && tls_list == old(tls_list) && Views() == old(Views())
      ensures multiThreaded && t !in old(tls_this) ==>
        fresh(hndl) && tls_list == old(tls_list) + [hndl] && Views() == old(Views()) + [map[]]
      ensures multiThreaded ==> tls_this == old(tls_this)[t := hndl] && hndl in tls_list
    {
      if !multiThreaded {
        return rank_stats;
      }
      if t in tls_this {
        hndl := tls_this[t];
      } else {
        hndl := NewTls(t, s);
      }
    }

    method NewTls(t: Tid, ghost s: Trail) returns (hndl: ThreadStats)
      requires Valid() && Counts(s) && multiThreaded && t !in tls_this
      modifies this
      ensures Valid() && fresh(footprint - old(footprint)) && Counts(s)
      ensures fresh(hndl) && tls_list == old(tls_list) + [hndl] && tls_this == old(tls_this)[t := hndl]
      ensures Views() == old(Views()) + [map[]]
    {
      hndl := new ThreadStats();
      assert Valid() && Counts(s) && Views() == old(Views());
      Register(hndl, t, s);
    }

    method Register(hndl: ThreadStats, t: Tid, ghost s: Trail)
      requires Valid() && Counts(s) && multiThreaded && t !in tls_this
      requires hndl !in footprint && hndl != rank_stats
      requires hndl.records == {} && hndl.disabled == 0 && hndl.Valid() && hndl.View() == map[]
      modifies this
      ensures Valid() && Counts(s) && footprint == old(footprint) + {hndl}
      ensures tls_list == old(tls_list) + [hndl] && tls_this == old(tls_this)[t := hndl]
      ensures Views() == old(Views()) + [map[]]
    {
      ghost var views := Views() + [map[]];
      tls_this := tls_this[t := hndl];
      tls_list := tls_list + [hndl];
      footprint := footprint + {hndl};
      assert ThreadsOk();
      assert Counts(s);
      ViewsAre(views);
    }

    // ---------- The steps of a thread ----------

    /** `hndl` is where the thread `t` is kept. */
    ghost predicate IsHandle(hndl: ThreadStats, t: Tid)
      reads this
    {
      if multiThreaded then t in tls_this && tls_this[t] == hndl else hndl == rank_stats
    }

    /** The counter of a thread is no part of any table. */
    method EnterAt(hndl: ThreadStats, t: Tid, ghost s: Trail)
      requires Valid() && Counts(s) && IsHandle(hndl, t)
      modifies hndl`disabled
      ensures Valid() && Views() == old(Views()) && rank_stats.View() == old(rank_stats.View())
      ensures Counts(After(s, Entering(t), multiThreaded))
    {
      ghost var views := Views();
      hndl.Enter();
      assert ThreadsOk();
      assert RankOk();
      ViewsAre(views);
    }

    method ExitAt(hndl: ThreadStats, t: Tid, ghost s: Trail)
      requires Valid() && Counts(s) && IsHandle(hndl, t)
      modifies hndl`disabled
      ensures Valid() && Views() == old(Views()) && rank_stats.View() == old(rank_stats.View())
      ensures Counts(After(s, Leaving(t), multiThreaded))
    {
      ghost var views := Views();
      hndl.Exit();
      assert ThreadsOk();
      assert RankOk();
      ViewsAre(views);
    }

    /** What holds of the threads whatever `footprint` says, in terms of their tables. */
    ghost predicate Apart(views: seq<Table>)
      reads this`tls_list, tls_list, set t <- tls_list, r <- t.records :: r
    {
      && |views| == |tls_list|
      && (forall j :: 0 <= j < |tls_list| ==> tls_list[j].Valid() && tls_list[j].View() == views[j])
      && (forall j, k :: 0 <= j < k < |tls_list| ==>
            tls_list[j] != tls_list[k] && tls_list[j].records !! tls_list[k].records)
    }

    /** An entry of the thread at place `i`, seen from the others: nothing of theirs changes. */
    method ConcludeFor(hndl: ThreadStats, ghost i: nat, x: Entry, enabled: bool, still: bool, threshold: int)
      requires Valid() && i < |tls_list| && tls_list[i] == hndl
      modifies hndl`cs_stats, hndl`records, hndl.records
      ensures forall j :: 0 <= j < |tls_list| ==> tls_list[j].Valid()
      ensures forall j :: 0 <= j < |tls_list| ==>
        tls_list[j].View() ==
        RecordedFor(old(Views()), i, if hndl.disabled == 0 then Due(x, enabled, still) else [], threshold)[j]
      ensures forall j, k :: 0 <= j < k < |tls_list| ==> tls_list[j].records !! tls_list[k].records
      ensures forall j :: 0 <= j < |tls_list| && j != i ==> tls_list[j].records == old(tls_list[j].records)
      ensures fresh(hndl.records - old(hndl.records)) && RankOk()
    {
      hndl.Conclude(x, enabled, still, threshold);
    }

    /** The new records of the thread at place `i` are added to what belongs to the threads. */
    ghost method Adopt(hndl: ThreadStats, i: nat, views: seq<Table>)
      requires Apart(views) && i < |tls_list| && tls_list[i] == hndl && HandlesOk()
      requires forall j :: 0 <= j < |tls_list| ==>
        tls_list[j] in footprint && (j != i ==> forall r <- tls_list[j].records :: r in footprint)
      requires RankOk() && hndl.records !! rank_stats.records
      modifies this`footprint
      ensures Valid() && Views() == views
      ensures footprint == old(footprint) + set r <- hndl.records :: r as object
    {
      footprint := footprint + set r <- hndl.records :: r as object;
      ViewsAre(views);
    }

    /** An entry of the thread at place `i`; its new records belong to it. */
    method ConcludeThread(hndl: ThreadStats, ghost i: nat, x: Entry, enabled: bool, still: bool, ghost s: Trail,
                          threshold: int)
      requires Valid() && Counts(s) && i < |tls_list| && tls_list[i] == hndl
      modifies this`footprint, hndl`cs_stats, hndl`records, hndl.records
      ensures Valid() && Counts(s) && fresh(footprint - old(footprint))
      ensures Views() ==
              if hndl.disabled == 0 && enabled && still && x.event.dur >= 0.0
              then old(Views())[i := Record(old(Views())[i], x, threshold)] else old(Views())
    {
      ConcludedFor(Views(), i, x, enabled, still, threshold);
      ghost var views :=
        RecordedFor(Views(), i, if hndl.disabled == 0 then Due(x, enabled, still) else [], threshold);
      ConcludeFor(hndl, i, x, enabled, still, threshold);
      Adopt(hndl, i, views);
    }

    // ---------- Steps as they come ----------

    /** What is to hold between the steps of a run: the tables hold what was due so far. `log` has it by
        place in the list of threads. */
    ghost predicate Between(s: Trail, log: seq<seq<Entry>>, threshold: int)
      reads this, rank_stats, rank_stats.records, footprint
    {
      Valid() && Counts(s) &&
      if multiThreaded then Logged(Views(), log, Entries(s.log), threshold)
      else rank_stats.View() == RecordAll(map[], Entries(s.log), threshold)
    }

    method Enter(t: Tid, ghost s: Trail, ghost log: seq<seq<Entry>>, threshold: int)
      returns (ghost log': seq<seq<Entry>>)
      requires Between(s, log, threshold)
      modifies this, footprint, rank_stats`disabled
      ensures Between(After(s, Entering(t), multiThreaded), log', threshold)
      ensures fresh(footprint - old(footprint)) && rank_stats.records == old(rank_stats.records)
    {
      var hndl;
      hndl, log' := Join(t, s, log, threshold);
      EnterAt(hndl, t, s);
    }

    method Join(t: Tid, ghost s: Trail, ghost log: seq<seq<Entry>>, threshold: int)
      returns (hndl: ThreadStats, ghost log': seq<seq<Entry>>)
      requires Between(s, log, threshold)
      modifies this
      ensures Between(s, log', threshold) && IsHandle(hndl, t) && (multiThreaded ==> hndl in tls_list)
      ensures fresh(footprint - old(footprint))
    {
      hndl := GetTls(t, s);
      log' := log;
      if multiThreaded && t !in old(tls_this) {
        log' := LogWith(log, |log|, []);
        LoggedNext(old(Views()), log, Entries(s.log), threshold, |log|, []);
        assert RecordedFor(old(Views()), |log|, [], threshold) == Views();
        assert Entries(s.log) + [] == Entries(s.log);
      }
    }

    method Exit(t: Tid, ghost s: Trail, ghost log: seq<seq<Entry>>, threshold: int)
      returns (ghost log': seq<seq<Entry>>)
      requires Between(s, log, threshold)
      modifies this, footprint, rank_stats`disabled
      ensures Between(After(s, Leaving(t), multiThreaded), log', threshold)
      ensures fresh(footprint - old(footprint)) && rank_stats.records == old(rank_stats.records)
    {
      var hndl;
      hndl, log' := Join(t, s, log, threshold);
      ExitAt(hndl, t, s);
    }

    method ConcludeMulti(hndl: ThreadStats, t: Tid, x: Entry, enabled: bool, still: bool, ghost s: Trail,
                         ghost log: seq<seq<Entry>>, threshold: int)
      returns (ghost log': seq<seq<Entry>>)
      requires Between(s, log, threshold) && multiThreaded && IsHandle(hndl, t) && hndl in tls_list
      modifies this`footprint, hndl`cs_stats, hndl`records, hndl.records
      ensures Between(After(s, Concluding(t, x, enabled, still), true), log', threshold)
      ensures fresh(footprint - old(footprint))
    {
      ghost var i: nat :| i < |tls_list| && tls_list[i] == hndl;
      ghost var xs := if hndl.disabled == 0 then Due(x, enabled, still) else [];
      log' := LogWith(log, i, xs);
      LoggedNext(Views(), log, Entries(s.log), threshold, i, xs);
      EntriesNotes(s.log, t, xs);
      ConcludedFor(Views(), i, x, enabled, still, threshold);
      ConcludeThread(hndl, i, x, enabled, still, s, threshold);
    }

    method ConcludeSingle(t: Tid, x: Entry, enabled: bool, still: bool, ghost s: Trail,
                          ghost log: seq<seq<Entry>>, threshold: int)
      requires Between(s, log, threshold) && !multiThreaded
      modifies rank_stats`cs_stats, rank_stats`records, rank_stats.records
      ensures Between(After(s, Concluding(t, x, enabled, still), false), log, threshold)
      ensures fresh(rank_stats.records - old(rank_stats.records))
    {
      ghost var xs := if rank_stats.disabled == 0 then Due(x, enabled, still) else [];
      RecordAllConcat(map[], Entries(s.log), xs, threshold);
      EntriesNotes(s.log, t, xs);
      assert Entries(s.log) + [] == Entries(s.log);
      rank_stats.Conclude(x, enabled, still, threshold);
    }

    /** The end of a wrapper: the event is recorded for the calling thread, and for no other, if it is due. */
    method Conclude(t: Tid, x: Entry, enabled: bool, still: bool, ghost s: Trail, ghost log: seq<seq<Entry>>,
                    threshold: int)
      returns (ghost log': seq<seq<Entry>>)
      requires Between(s, log, threshold)
      modifies this, footprint, rank_stats, rank_stats.records
      ensures Between(After(s, Concluding(t, x, enabled, still), multiThreaded), log', threshold)
      ensures fresh(footprint - old(footprint)) && fresh(rank_stats.records - old(rank_stats.records))
    {
      var hndl;
      hndl, log' := Join(t, s, log, threshold);
      if multiThreaded {
        log' := ConcludeMulti(hndl, t, x, enabled, still, s, log', threshold);
      } else {
        ConcludeSingle(t, x, enabled, still, s, log', threshold);
      }
    }

    /** A thread ends: what it has recorded stays in the list, and its counter keeps it from recording more. */
    method EndThread(t: Tid, ghost s: Trail, ghost log: seq<seq<Entry>>, threshold: int)
      requires Between(s, log, threshold)
      modifies this`tls_this, footprint
      ensures Between(After(s, Ending(t), multiThreaded), log, threshold)
      ensures tls_list == old(tls_list) && tls_this == if multiThreaded then old(tls_this) - {t} else old(tls_this)
      ensures multiThreaded && t in old(tls_this) ==> old(tls_this)[t].disabled == 1
    {
      if multiThreaded && t in tls_this {
        Disable(tls_this[t], t, s);
      } else {
        assert multiThreaded ==> tls_this - {t} == tls_this && s.depth - {t} == s.depth;
      }
    }

    method Disable(hndl: ThreadStats, t: Tid, ghost s: Trail)
      requires Valid() && Counts(s) && multiThreaded && IsHandle(hndl, t)
      modifies this`tls_this, hndl`disabled
      ensures Valid() && Views() == old(Views()) && Counts(After(s, Ending(t), true))
      ensures tls_this == old(tls_this) - {t} && hndl.disabled == 1
    {
      Unregister(t, s);
      Stop(hndl, After(s, Ending(t), true));
    }

    method Unregister(t: Tid, ghost s: Trail)
      requires Valid() && Counts(s) && multiThreaded && t in tls_this
      modifies this`tls_this
      ensures Valid() && Views() == old(Views()) && Counts(After(s, Ending(t), true))
      ensures tls_this == old(tls_this) - {t} && forall u <- tls_this :: tls_this[u] != old(tls_this)[t]
    {
      ghost var views := Views();
      tls_this := tls_this - {t};
      ViewsAre(views);
    }

    method Stop(hndl: ThreadStats, ghost s: Trail)
      requires Valid() && Counts(s) && multiThreaded && hndl != rank_stats
      requires forall u <- tls_this :: tls_this[u] != hndl
      modifies hndl`disabled
      ensures Valid() && Views() == old(Views()) && Counts(s) && hndl.disabled == 1
    {
      ghost var views := Views();
      hndl.disabled := 1;
      assert ThreadsOk();
      ViewsAre(views);
    }

    // ---------- Merging and resetting ----------

    /** The first `i` threads are merged into the table of the rank. */
    ghost predicate MergedUpTo(i: nat, views: seq<Table>)
      reads this, rank_stats, rank_stats.records, footprint
    {
      Valid() && Views() == views && i <= |tls_list| && rank_stats.View() == MergeAll(views[..i])
    }

    method MergeThread(i: nat, ghost views: seq<Table>)
      requires MergedUpTo(i, views) && i < |tls_list|
      modifies rank_stats`cs_stats, rank_stats`records, rank_stats.records
      ensures MergedUpTo(i + 1, views) && fresh(rank_stats.records - old(rank_stats.records))
    {
      assert views[..i + 1][..i] == views[..i] && views[i] == tls_list[i].View();
      rank_stats.CsMerge(tls_list[i]);
    }

    method ResetRank()
      requires Valid()
      modifies rank_stats`cs_stats, rank_stats`records
      ensures Valid() && Views() == old(Views()) && rank_stats.View() == map[] && rank_stats.records == {}
    {
      rank_stats.CsReset();
    }

    /** Rebuilds the table of the rank from the tables of all threads. */
    method Merge()
      requires Valid()
      modifies rank_stats`cs_stats, rank_stats`records, rank_stats.records
      ensures Valid() && Views() == old(Views()) && fresh(rank_stats.records - old(rank_stats.records))
      ensures rank_stats.View() == if multiThreaded then MergeAll(Views()) else old(rank_stats.View())
    {
      if !multiThreaded {
        return;
      }
      ghost var views := Views();
      ResetRank();
      var i := 0;
      while i < |tls_list|
        invariant MergedUpTo(i, views) && fresh(rank_stats.records - old(rank_stats.records))
      {
        MergeThread(i, views);
        i := i + 1;
      }
      assert views[..i] == views;
    }

    /** `mpiPi_stats_mt_cs_reset`: forgets the records of the rank and of all threads. */
    method CsReset(ghost s: Trail)
      requires Valid() && Counts(s)
      modifies rank_stats`cs_stats, rank_stats`records, footprint
      ensures Valid() && Counts(s) && tls_list == old(tls_list) && rank_stats.records == {}
      ensures rank_stats.View() == map[]
      ensures multiThreaded ==> forall i :: 0 <= i < |Views()| ==> Views()[i] == map[]
    {
      ResetRank();
      if !multiThreaded {
        return;
      }
      var i := 0;
      while i < |tls_list|
        invariant 0 <= i <= |tls_list| && Valid() && Counts(s)
        invariant rank_stats.View() == map[] && rank_stats.records == {}
        invariant forall j :: 0 <= j < i ==> Views()[j] == map[]
      {
        ResetThread(tls_list[i], i, s);
        i := i + 1;
      }
    }

    method ResetThread(hndl: ThreadStats, ghost i: nat, ghost s: Trail)
      requires Valid() && Counts(s) && i < |tls_list| && tls_list[i] == hndl
      modifies hndl`cs_stats, hndl`records
      ensures Valid() && Counts(s) && Views() == old(Views())[i := map[]]
      ensures rank_stats.View() == old(rank_stats.View()) && rank_stats.records == old(rank_stats.records)
    {
      ghost var views := Views()[i := map[]];
      hndl.CsReset();
      assert forall j :: 0 <= j < |tls_list| && j != i ==> tls_list[j].View() == views[j];
      assert ThreadsOk();
      ViewsAre(views);
    }

    // ---------- Runs ----------

    method DoMerge(ghost s: Trail, ghost log: seq<seq<Entry>>, threshold: int)
      requires Between(s, log, threshold)
      modifies rank_stats`cs_stats, rank_stats`records, rank_stats.records
      ensures Between(s, log, threshold) && fresh(rank_stats.records - old(rank_stats.records))
      ensures rank_stats.View() == RecordAll(map[], Entries(s.log), threshold)
    {
      Merge();
      if multiThreaded { LoggedMerge(Views(), log, Entries(s.log), threshold); }
    }

    method DoReset(ghost s: Trail, ghost log: seq<seq<Entry>>, threshold: int) returns (ghost log': seq<seq<Entry>>)
      requires Between(s, log, threshold)
      modifies rank_stats`cs_stats, rank_stats`records, footprint
      ensures Between(After(s, Resetting, multiThreaded), log', threshold) && rank_stats.records == {}
    {
      CsReset(s);
      log' := Emptied(log);
      if multiThreaded { LoggedReset(Views(), log, threshold); }
    }

    method Perform(op: Step, ghost s: Trail, ghost log: seq<seq<Entry>>, threshold: int)
      returns (ghost log': seq<seq<Entry>>)
      requires Between(s, log, threshold)
      modifies this, footprint, rank_stats, rank_stats.records
      ensures Between(After(s, op, multiThreaded), log', threshold)
      ensures fresh(footprint - old(footprint)) && fresh(rank_stats.records - old(rank_stats.records))
      ensures op.Merging? ==> rank_stats.View() == RecordAll(map[], Entries(s.log), threshold)
    {
      log' := log;
      match op
      case Entering(t) => log' := Enter(t, s, log, threshold);
      case Leaving(t) => log' := Exit(t, s, log, threshold);
      case Concluding(t, x, enabled, still) => log' := Conclude(t, x, enabled, still, s, log, threshold);
      case Ending(t) => EndThread(t, s, log, threshold);
      case Merging => DoMerge(s, log, threshold);
      case Resetting => log' := DoReset(s, log, threshold);
    }

    method PerformNext(ops: seq<Step>, i: nat, ghost log: seq<seq<Entry>>, threshold: int)
      returns (ghost log': seq<seq<Entry>>)
      requires i < |ops| && Between(TrailOf(ops[..i], multiThreaded), log, threshold)
      modifies this, footprint, rank_stats, rank_stats.records
      ensures Between(TrailOf(ops[..i + 1], multiThreaded), log', threshold)
      ensures fresh(footprint - old(footprint)) && fresh(rank_stats.records - old(rank_stats.records))
      ensures ops[i].Merging? ==>
        rank_stats.View() == RecordAll(map[], Entries(TrailOf(ops[..i + 1], multiThreaded).log), threshold)
    {
      AfterNext(ops, i, multiThreaded);
      log' := Perform(ops[i], TrailOf(ops[..i], multiThreaded), log, threshold);
    }

    /** Over any run of steps, from any threads in any interleaving, with mergings and resets in between, a
        merging leaves the rank with the table of all events that were due since the last reset. */
    method Run(ops: seq<Step>, threshold: int)
      requires Valid() && Counts(Start) && tls_list == [] && rank_stats.View() == map[]
      modifies this, footprint, rank_stats, rank_stats.records
      ensures Valid() && Counts(TrailOf(ops, multiThreaded))
      ensures !multiThreaded || (ops != [] && ops[|ops| - 1].Merging?) ==>
        rank_stats.View() == RecordAll(map[], EventsEnded(ops, multiThreaded), threshold) &&
        forall k :: At(rank_stats.View(), k).count == Ended(ops, multiThreaded, k)
    {
      ghost var log: seq<seq<Entry>> := [];
      var i := 0;
      while i < |ops|
        invariant 0 <= i <= |ops| && Between(TrailOf(ops[..i], multiThreaded), log, threshold)
        invariant fresh(footprint - old(footprint)) && fresh(rank_stats.records - old(rank_stats.records))
        invariant i > 0 && ops[i - 1].Merging? ==>
          rank_stats.View() == RecordAll(map[], Entries(TrailOf(ops[..i], multiThreaded).log), threshold)
      {
        log := PerformNext(ops, i, log, threshold);
        i := i + 1;
      }
      assert ops[..i] == ops;
      DueIsEnded(ops, multiThreaded);
      forall k
        ensures At(RecordAll(map[], EventsEnded(ops, multiThreaded), threshold), k).count ==
                Ended(ops, multiThreaded, k)
      {
        DueTable(ops, multiThreaded, k, threshold);
      }
    }
  }
}

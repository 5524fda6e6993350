/** The two readings of the wait at line 92 of `mpiP-tslist.c`: until the link is there, as the comment
    has it, and while it is there, as the text has it. */
module WaitReadings {
  import opened Options
  import opened Sequences
  import opened TsList

  /** The append that made the swap fail is still about to write the link. */
  lemma AwaitedAppend<V>(s: State<V>) returns (t: Tid)
    requires Inv(s) && s.pc.Waiting? && s.heap[s.pc.elem].next == None
    ensures t in s.appends && s.appends[t] == Swapped(s.pc.elem, s.queue[1])
  {
    assert LinkOrPending(s, 1);
    assert At(s, 1) == s.pc.elem;
    t :| t in s.appends && s.appends[t] == Swapped(At(s, 1), s.queue[1]);
  }

  /** As documented, the wait is never in vain: one step of some append, and the next look ends it. */
  lemma WaitEnds<V>(s: State<V>)
    requires Inv(s) && s.pc.Waiting? && s.heap[s.pc.elem].next == None
    ensures exists t :: Enabled(s, Action<V>.Link(t)) &&
              DeqStep(Step(s, Action<V>.Link(t), AsDocumented), AsDocumented).pc == Appeared(s.pc.elem)
  {
    var t := AwaitedAppend(s);
    assert Enabled(s, Action<V>.Link(t));
  }

  /** No state on the way has the dequeuer in the wait. */
  predicate NeverWaits<V>(s: State<V>, acts: seq<Action<V>>, w: Wait)
    requires Possible(s, acts, w)
    decreases |acts|
  {
    !s.pc.Waiting? && (acts == [] || NeverWaits(Step(s, acts[0], w), acts[1..], w))
  }

  /** As written, the code does what is documented on every run in which the swap never fails. */
  lemma {:induction false} AsWrittenUntilWait<V>(s: State<V>, acts: seq<Action<V>>)
    requires Possible(s, acts, AsWritten) && NeverWaits(s, acts, AsWritten)
    ensures Possible(s, acts, AsDocumented)
    ensures Run(s, acts, AsWritten) == Run(s, acts, AsDocumented)
    decreases |acts|
  {
    if acts != [] {
      AsWrittenUntilWait(Step(s, acts[0], AsWritten), acts[1..]);
    }
  }

  /** The next `n` steps of the dequeuer, undisturbed. */
  function DeqSteps<V>(s: State<V>, n: nat, w: Wait): State<V>
    decreases n
  {
    if n == 0 then s else DeqStep(DeqSteps(s, n - 1, w), w)
  }

  /** Every append between its swap and its link is about to link right behind the head. */
  predicate BehindHead<V>(s: State<V>) {
    forall t :: t in s.appends && s.appends[t].Swapped? ==> s.appends[t].prev == s.head
  }

  /** The dequeuer has not found, and will not find, an element that only seems to be the last. */
  ghost predicate Calm<V>(s: State<V>) {
    && Inv(s) && BehindHead(s)
    && !s.pc.Waiting? && !s.pc.Appeared? && !s.pc.GotLate?
    && (s.pc.Alone? || s.pc.Detached? ==> |s.queue| == 1)
  }

  lemma CalmOther<V>(s: State<V>, a: Action<V>)
    requires Calm(s) && Enabled(s, a) && (a.Alloc? || a.Link?)
    ensures Calm(Step(s, a, AsWritten))
  {
    StepInv(s, a);
  }

  /** An element without a successor is alone, since no append holds the link behind it. */
  lemma CalmAlone<V>(s: State<V>)
    requires Calm(s) && s.pc.GotElem? && s.heap[s.pc.elem].next.None?
    ensures |s.queue| == 1
  {
    var e := s.pc.elem;
    assert |s.queue| >= 2 ==> At(s, 1) == e;
    assert |s.queue| >= 2 ==> LinkOrPending(s, 1);
  }

  lemma CalmDeq<V>(s: State<V>)
    requires Calm(s)
    ensures Calm(DeqStep(s, AsWritten))
  {
    DeqInv(s);
    assert DeqStep(s, AsWritten) == DeqStep(s, AsDocumented);
    if s.pc.GotElem? {
      if s.heap[s.pc.elem].next.None? { CalmAlone(s); }
    }
  }

  lemma CalmStep<V>(s: State<V>, a: Action<V>)
    requires Calm(s) && Enabled(s, a) && !a.Swap?
    ensures Calm(Step(s, a, AsWritten))
  {
    if a.Deq? { CalmDeq(s); } else { CalmOther(s, a); }
  }

  /** A run of the code as written in which no append swaps the tail. */
  predicate SwapFree<V>(s: State<V>, acts: seq<Action<V>>) {
    Possible(s, acts, AsWritten) && forall i :: 0 <= i < |acts| ==> !acts[i].Swap?
  }

  lemma {:induction false} CalmRun<V>(s: State<V>, acts: seq<Action<V>>)
    requires Calm(s) && SwapFree(s, acts)
    ensures NeverWaits(s, acts, AsWritten) && Calm(Run(s, acts, AsWritten))
    decreases |acts|
  {
    if acts != [] {
      CalmStep(s, acts[0]);
      CalmRun(Step(s, acts[0], AsWritten), acts[1..]);
    }
  }

  /** Dequeues that start with every unfinished append right behind the head, and see no swap, are right
      as written. */
  lemma AsWrittenUndisturbed<V>(s: State<V>, acts: seq<Action<V>>)
    requires Inv(s) && s.pc.Idle? && BehindHead(s) && SwapFree(s, acts)
    ensures NeverWaits(s, acts, AsWritten) && Inv(Run(s, acts, AsWritten))
    ensures Possible(s, acts, AsDocumented) && Run(s, acts, AsWritten) == Run(s, acts, AsDocumented)
  {
    CalmRun(s, acts);
    AsWrittenUntilWait(s, acts);
  }

  // ---------- A single call ----------

  /** The dequeuer returns with this step. */
  predicate Returns<V>(s: State<V>, a: Action<V>) {
    a.Deq? && (s.pc.Freeing? || (s.pc.NonEmpty? && s.head in s.heap && s.heap[s.head].next.None?))
  }

  /** A run without a swap in which at most one dequeue is made, up to its return. */
  predicate OneCall<V>(s: State<V>, acts: seq<Action<V>>)
    decreases |acts|
  {
    acts == [] ||
    (Enabled(s, acts[0]) && !acts[0].Swap? && (Returns(s, acts[0]) ==> |acts| == 1) &&
     OneCall(Step(s, acts[0], AsWritten), acts[1..]))
  }

  lemma {:induction false} OneCallSwapFree<V>(s: State<V>, acts: seq<Action<V>>)
    requires OneCall(s, acts)
    ensures SwapFree(s, acts)
    decreases |acts|
  {
    if acts != [] {
      OneCallSwapFree(Step(s, acts[0], AsWritten), acts[1..]);
      assert forall i :: 1 <= i < |acts| ==> acts[i] == acts[1..][i - 1];
    }
  }

  /** No append is about to link behind the first element. */
  predicate FirstClear<V>(s: State<V>) {
    s.queue == [] ||
    forall t :: t in s.appends && s.appends[t].Swapped? ==> s.appends[t].prev != s.queue[0]
  }

  predicate BeforeFirst<V>(pc: Dequeue<V>) {
    pc.Idle? || pc.NonEmpty? || pc.HasFirst? || pc.GotElem?
  }

  ghost predicate CalmCall<V>(s: State<V>) {
    && Inv(s) && !s.pc.Waiting? && !s.pc.Appeared? && !s.pc.GotLate?
    && (BeforeFirst(s.pc) ==> FirstClear(s))
    && (s.pc.Alone? || s.pc.Detached? ==> |s.queue| == 1)
  }

  lemma CalmCallDeq<V>(s: State<V>)
    requires CalmCall(s) && !s.pc.Freeing?
    ensures CalmCall(DeqStep(s, AsWritten))
  {
    DeqInv(s);
    if s.pc.GotElem? && s.heap[s.pc.elem].next.None? {
      assert |s.queue| >= 2 ==> At(s, 1) == s.queue[0] && LinkOrPending(s, 1);
    }
  }

  lemma CalmCallStep<V>(s: State<V>, a: Action<V>)
    requires CalmCall(s) && Enabled(s, a) && !a.Swap? && !(a.Deq? && s.pc.Freeing?)
    ensures CalmCall(Step(s, a, AsWritten))
  {
    if a.Deq? { CalmCallDeq(s); } else { StepInv(s, a); }
  }

  lemma {:induction false} CalmCallRun<V>(s: State<V>, acts: seq<Action<V>>)
    requires CalmCall(s) && OneCall(s, acts) && Possible(s, acts, AsWritten)
    ensures NeverWaits(s, acts, AsWritten)
    decreases |acts|
  {
    if acts != [] {
      var s' := Step(s, acts[0], AsWritten);
      if acts[0].Deq? && s.pc.Freeing? {
        assert NeverWaits(s', acts[1..], AsWritten);
      } else {
        CalmCallStep(s, acts[0]);
        CalmCallRun(s', acts[1..]);
      }
    }
  }

  // ---------- Otherwise the swap can fail ----------

  /** The append of `t` is unfinished further back, and the dequeuer may still come to the element in
      front of it. */
  ghost predicate OnCourse<V>(s: State<V>, t: Tid) {
    && Inv(s) && t in s.appends && s.appends[t].Swapped? && s.appends[t].prev != s.head
    && !s.pc.Appeared? && !s.pc.GotLate?
    && (s.pc.Alone? || s.pc.Detached? || s.pc.Waiting? ==> s.heap[s.pc.elem].next == None)
  }

  /** How far the dequeuer is from the next element taken off, or from the wait. */
  function Distance<V>(s: State<V>): nat {
    match s.pc
    case Unlinked(_) => 10
    case Taken(_) => 9
    case Freeing(_, _) => 8
    case Idle => 7
    case NonEmpty => if s.head in s.heap && s.heap[s.head].next.Some? then 5 else 6
    case HasFirst => 4
    case GotElem(_) => 3
    case HasNext(_) => 2
    case Alone(_) => 2
    case GotNext(_, _) => 1
    case Detached(_) => 1
    case _ => 0
  }

  /** With an append unfinished further back, the queue has an element in front of it. */
  lemma FurtherBack<V>(s: State<V>, t: Tid)
    requires OnCourse(s, t)
    ensures |s.queue| >= 2 && s.head != s.tail
    ensures s.heap[s.queue[0]].next.Some? ==> s.appends[t].prev != s.queue[0]
  {
    var k := LinkPlace(s, t);
    assert k >= 1;
    assert At(s, |s.queue|) != At(s, 0) by { AtDistinct(s, 0, |s.queue|); }
  }

  /** The unfinished append is right behind the first element, and the dequeuer has not passed that. */
  predicate JustAhead<V>(s: State<V>, t: Tid) {
    && t in s.appends && s.appends[t].Swapped? && s.queue != [] && s.appends[t].prev == s.queue[0]
    && (BeforeFirst(s.pc) || s.pc.Alone? || s.pc.Detached? || s.pc.Waiting?)
  }

  /** One step closer to the wait. */
  ghost predicate Closer<V>(s: State<V>, s': State<V>, t: Tid) {
    && OnCourse(s', t) && (JustAhead(s, t) ==> JustAhead(s', t))
    && (|s'.queue| < |s.queue| || (s'.queue == s.queue && Distance(s') < Distance(s)))
  }

  /** An append links the first element, which the dequeuer has not found linked. */
  lemma LinkOnCourse<V>(s: State<V>, t: Tid) returns (a: Action<V>)
    requires OnCourse(s, t) && s.pc.NonEmpty? && s.heap[s.head].next.None?
    ensures a.Link? && Enabled(s, a) && Closer(s, Step(s, a, AsWritten), t)
  {
    FurtherBack(s, t);
    assert LinkOrPending(s, 0);
    var u :| u in s.appends && s.appends[u] == Swapped(s.head, s.queue[0]);
    a := Link(u);
    StepInv(s, a);
  }

  lemma DeqJustAhead<V>(s: State<V>, t: Tid)
    requires OnCourse(s, t) && JustAhead(s, t)
    requires !s.pc.Waiting? && !(s.pc.NonEmpty? && s.heap[s.head].next.None?)
    ensures JustAhead(DeqStep(s, AsWritten), t)
  {
    FurtherBack(s, t);
  }

  lemma DeqDistance<V>(s: State<V>, t: Tid)
    requires OnCourse(s, t) && !s.pc.Waiting? && !(s.pc.NonEmpty? && s.heap[s.head].next.None?)
    ensures var s' := DeqStep(s, AsWritten);
            |s'.queue| < |s.queue| || (s'.queue == s.queue && Distance(s') < Distance(s))
  {
    FurtherBack(s, t);
  }

  lemma DeqOnCourse<V>(s: State<V>, t: Tid)
    requires OnCourse(s, t) && !s.pc.Waiting? && !(s.pc.NonEmpty? && s.heap[s.head].next.None?)
    ensures Closer(s, DeqStep(s, AsWritten), t)
  {
    DeqDistance(s, t);
    if JustAhead(s, t) { DeqJustAhead(s, t); }
    DeqInv(s);
    assert DeqStep(s, AsWritten) == DeqStep(s, AsDocumented);
  }

  /** The link that the dequeuer needs next, or else its own next step. */
  lemma NextOnCourse<V>(s: State<V>, t: Tid) returns (a: Action<V>)
    requires OnCourse(s, t) && !s.pc.Waiting?
    ensures Enabled(s, a) && !a.Swap? && Closer(s, Step(s, a, AsWritten), t)
    ensures JustAhead(s, t) ==> !Returns(s, a)
  {
    if s.pc.NonEmpty? && s.heap[s.head].next.None? {
      a := LinkOnCourse(s, t);
    } else {
      a := Deq;
      DeqOnCourse(s, t);
    }
  }

  lemma ReachesWait<V>(s: State<V>, t: Tid) returns (acts: seq<Action<V>>)
    requires OnCourse(s, t)
    ensures SwapFree(s, acts) && (JustAhead(s, t) ==> OneCall(s, acts))
    ensures var w := Run(s, acts, AsWritten); Inv(w) && w.pc.Waiting? && w.heap[w.pc.elem].next == None
    decreases |s.queue|, Distance(s)
  {
    if s.pc.Waiting? {
      acts := [];
    } else {
      var a := NextOnCourse(s, t);
      var rest := ReachesWait(Step(s, a, AsWritten), t);
      acts := [a] + rest;
      assert acts[1..] == rest;
    }
  }

  // ---------- After the swap has failed: what the text does, exactly ----------

  /** Past the wait, but as if still in it. */
  function AsIfWaiting<V>(s: State<V>): State<V>
    requires s.pc.Appeared?
  {
    s.(pc := Waiting(s.pc.elem))
  }

  /** Nothing has gone wrong. That the dequeuer may be past the wait before the link is there is the one
      thing in which the text differs. */
  ghost predicate Intact<V>(s: State<V>) {
    Inv(s) || (s.pc.Appeared? && Inv(AsIfWaiting(s)))
  }

  /** In an intact state no value is lost, doubled or out of order, and nothing freed was touched. */
  lemma IntactMeans<V>(s: State<V>)
    requires Intact(s)
    ensures !s.fault && Chain(s) && forall i :: 0 <= i < |s.queue| ==> LinkOrPending(s, i)
    ensures InHand(s.pc) ==> s.pc.elem in s.heap
    ensures s.appended ==
            s.returned + (if InHand(s.pc) then [s.heap[s.pc.elem].ptr] else []) + Values(s.heap, s.queue)
  {
    if !Inv(s) {
      var w := AsIfWaiting(s);
      assert Chain(w) && Held(w) == [];
      forall i | 0 <= i < |s.queue| ensures LinkOrPending(s, i) {
        assert LinkOrPending(w, i) && At(w, i) == At(s, i);
      }
    }
  }

  /** The dequeuer reads the link of its element only when it is there. */
  predicate ReadsLink<V>(s: State<V>, a: Action<V>) {
    a.Deq? && s.pc.Appeared? ==> s.pc.elem in s.heap && s.heap[s.pc.elem].next.Some?
  }

  predicate LinksRead<V>(s: State<V>, acts: seq<Action<V>>)
    requires Possible(s, acts, AsWritten)
    decreases |acts|
  {
    acts == [] || (ReadsLink(s, acts[0]) && LinksRead(Step(s, acts[0], AsWritten), acts[1..]))
  }

  lemma AppearedInv<V>(s: State<V>)
    requires Intact(s) && s.pc.Appeared? && s.heap[s.pc.elem].next.Some?
    ensures Inv(s)
  {
    if Inv(AsIfWaiting(s)) {
      StepInv(AsIfWaiting(s), Action<V>.Deq);
      assert Step(AsIfWaiting(s), Action<V>.Deq, AsDocumented) == s;
    }
  }

  lemma IntactStep<V>(s: State<V>, a: Action<V>)
    requires Intact(s) && Enabled(s, a) && ReadsLink(s, a)
    ensures Intact(Step(s, a, AsWritten))
  {
    var s' := Step(s, a, AsWritten);
    if a.Deq? && s.pc.Waiting? {
      assert if s.heap[s.pc.elem].next.None? then AsIfWaiting(s') == s else s' == s;
    } else if a.Deq? {
      if s.pc.Appeared? { AppearedInv(s); }
      StepInv(s, a);
      assert s' == Step(s, a, AsDocumented);
    } else if Inv(s) {
      StepInv(s, a);
      assert s' == Step(s, a, AsDocumented);
    } else {
      StepInv(AsIfWaiting(s), a);
      assert Step(AsIfWaiting(s), a, AsDocumented) == AsIfWaiting(s');
    }
  }

  /** No append will ever write the link of the head. */
  ghost predicate HeadForgotten<V>(s: State<V>) {
    && s.head in s.heap && s.heap[s.head].next == None && s.tail != s.head
    && forall t :: t in s.appends ==>
         s.appends[t].elem != s.head && (s.appends[t].Swapped? ==> s.appends[t].prev != s.head)
  }

  /** The elements behind the head are lost, or will be with the next write of the dequeuer. */
  ghost predicate Doomed<V>(s: State<V>) {
    && HeadForgotten(s)
    && match s.pc
       case GotLate(e, n) => n == None && e != s.head && |s.queue| >= 2
       case Taken(e) => e != s.head && s.queue != []
       case Freeing(e, _) => e != s.head && s.queue != []
       case Idle => s.queue != []
       case NonEmpty => s.queue != []
       case _ => false
  }

  lemma DoomedStep<V>(s: State<V>, a: Action<V>)
    requires Doomed(s) && Enabled(s, a)
    ensures Doomed(Step(s, a, AsWritten))
    ensures s.pc.Idle? || s.pc.NonEmpty? ==>
            var s' := Step(s, a, AsWritten);
            (s'.pc.Idle? || s'.pc.NonEmpty?) && s'.returned == s.returned
  {
  }

  lemma HeadLinked<V>(s: State<V>)
    requires Inv(s) && s.queue != [] && !Handing(s.pc)
    ensures s.heap[s.head].next == Some(s.queue[0]) ||
            exists t :: t in s.appends && s.appends[t] == Swapped(s.head, s.queue[0])
  {
    assert LinkOrPending(s, 0);
  }

  lemma DoomedNotIntact<V>(s: State<V>)
    requires Doomed(s)
    ensures !Intact(s)
  {
    if Inv(s) && !s.pc.GotLate? {
      HeadLinked(s);
    }
  }

  lemma {:induction false} DoomedRun<V>(s: State<V>, acts: seq<Action<V>>)
    requires Doomed(s) && Possible(s, acts, AsWritten)
    ensures Doomed(Run(s, acts, AsWritten))
    decreases |acts|
  {
    if acts != [] {
      DoomedStep(s, acts[0]);
      DoomedRun(Step(s, acts[0], AsWritten), acts[1..]);
    }
  }

  /** The loss is for good: once the dequeuer is idle again, no dequeue ever returns anything more, although
      elements are queued. */
  lemma {:induction false} LostForever<V>(s: State<V>, acts: seq<Action<V>>)
    requires Doomed(s) && s.pc.Idle? && Possible(s, acts, AsWritten)
    ensures Run(s, acts, AsWritten).returned == s.returned && Run(s, acts, AsWritten).queue != []
  {
    LostMeanwhile(s, acts);
  }

  lemma {:induction false} LostMeanwhile<V>(s: State<V>, acts: seq<Action<V>>)
    requires Doomed(s) && (s.pc.Idle? || s.pc.NonEmpty?) && Possible(s, acts, AsWritten)
    ensures Run(s, acts, AsWritten).returned == s.returned && Run(s, acts, AsWritten).queue != []
    decreases |acts|
  {
    if acts != [] {
      DoomedStep(s, acts[0]);
      LostMeanwhile(Step(s, acts[0], AsWritten), acts[1..]);
    }
  }

  lemma TooEarly<V>(s: State<V>)
    requires Intact(s) && !ReadsLink(s, Action<V>.Deq)
    ensures Doomed(Step(s, Action<V>.Deq, AsWritten))
  {
    var w := AsIfWaiting(s);
    forall t | t in w.appends ensures AppendOk(w, w.appends[t]) {}
  }

  /** Exactly when a run of the code as written loses nothing: if and only if every time that the dequeuer
      is past the wait, it reads a link that is there. */
  lemma {:induction false} AsWrittenExactly<V>(s: State<V>, acts: seq<Action<V>>)
    requires Intact(s) && Possible(s, acts, AsWritten)
    ensures LinksRead(s, acts) <==> Intact(Run(s, acts, AsWritten))
    decreases |acts|
  {
    if acts != [] {
      var s' := Step(s, acts[0], AsWritten);
      if ReadsLink(s, acts[0]) {
        IntactStep(s, acts[0]);
        AsWrittenExactly(s', acts[1..]);
      } else {
        TooEarly(s);
        DoomedRun(s', acts[1..]);
        DoomedNotIntact(Run(s', acts[1..], AsWritten));
      }
    }
  }

  lemma {:induction false} RunOn<V>(s: State<V>, a: seq<Action<V>>, b: seq<Action<V>>, w: Wait)
    requires Possible(s, a, w) && Possible(Run(s, a, w), b, w)
    ensures Possible(s, a + b, w) && Run(s, a + b, w) == Run(Run(s, a, w), b, w)
    decreases |a|
  {
    if a == [] {
      assert a + b == b;
    } else {
      assert (a + b)[1..] == a[1..] + b;
      RunOn(Step(s, a[0], w), a[1..], b, w);
    }
  }

  /** Two more steps of the dequeuer, and a loss is certain. */
  lemma WaitLoses<V>(s: State<V>, acts: seq<Action<V>>) returns (more: seq<Action<V>>)
    requires SwapFree(s, acts)
    requires var w := Run(s, acts, AsWritten); Inv(w) && w.pc.Waiting? && w.heap[w.pc.elem].next == None
    ensures SwapFree(s, more) && !NeverWaits(s, more, AsWritten) && !Intact(Run(s, more, AsWritten))
  {
    var w := Run(s, acts, AsWritten);
    var w1 := Step(w, Action<V>.Deq, AsWritten);
    IntactStep(w, Action<V>.Deq);
    TooEarly(w1);
    DoomedNotIntact(Step(w1, Action<V>.Deq, AsWritten));
    var two: seq<Action<V>> := [Deq, Deq];
    assert two[1..] == [Action<V>.Deq] && two[1..][1..] == [];
    assert Possible(w1, two[1..], AsWritten) && Possible(w, two, AsWritten);
    RunOn(s, acts, two, AsWritten);
    more := acts + two;
    WaitsOn(s, acts, two);
  }

  lemma {:induction false} WaitsOn<V>(s: State<V>, acts: seq<Action<V>>, more: seq<Action<V>>)
    requires Possible(s, acts, AsWritten) && Run(s, acts, AsWritten).pc.Waiting?
    requires Possible(s, acts + more, AsWritten)
    ensures !NeverWaits(s, acts + more, AsWritten)
    decreases |acts|
  {
    if acts != [] {
      assert (acts + more)[1..] == acts[1..] + more;
      WaitsOn(Step(s, acts[0], AsWritten), acts[1..], more);
    } else {
      assert acts + more == more;
    }
  }

  /** Before a dequeue starts it can be known, exactly, whether the code as written is safe as long as no
      append swaps the tail: if and only if every unfinished append is about to link right behind the
      head. Otherwise some run without a swap waits, and one loses elements. */
  lemma SafeExactly<V(!new)>(s: State<V>)
    requires Inv(s) && s.pc.Idle?
    ensures BehindHead(s) <==> forall acts :: SwapFree(s, acts) ==> NeverWaits(s, acts, AsWritten)
    ensures BehindHead(s) <==> forall acts :: SwapFree(s, acts) ==> Intact(Run(s, acts, AsWritten))
  {
    if BehindHead(s) {
      forall acts | SwapFree(s, acts)
        ensures NeverWaits(s, acts, AsWritten) && Intact(Run(s, acts, AsWritten))
      {
        AsWrittenUndisturbed(s, acts);
      }
    } else {
      var t :| t in s.appends && s.appends[t].Swapped? && s.appends[t].prev != s.head;
      var acts := ReachesWait(s, t);
      var more := WaitLoses(s, acts);
    }
  }

  /** And for a single call: its swap can fail if and only if some append is about to link behind the first
      element. */
  lemma SafeCallExactly<V(!new)>(s: State<V>)
    requires Inv(s) && s.pc.Idle?
    ensures FirstClear(s) <==>
            forall acts :: OneCall(s, acts) ==> Possible(s, acts, AsWritten) && NeverWaits(s, acts, AsWritten)
  {
    if FirstClear(s) {
      forall acts | OneCall(s, acts) ensures Possible(s, acts, AsWritten) && NeverWaits(s, acts, AsWritten) {
        OneCallSwapFree(s, acts);
        CalmCallRun(s, acts);
      }
    } else {
      var t :| t in s.appends && s.appends[t].Swapped? && s.appends[t].prev == s.queue[0];
      var acts := ReachesWait(s, t);
      assert acts + [] == acts;
      WaitsOn(s, acts, []);
    }
  }

  /** A run of the code as written that loses elements in the wait. */
  ghost predicate Loses<V>(s: State<V>, acts: seq<Action<V>>) {
    Possible(s, acts, AsWritten) && !NeverWaits(s, acts, AsWritten) && !Intact(Run(s, acts, AsWritten))
  }

  lemma LosesLater<V>(s: State<V>, a: Action<V>, acts: seq<Action<V>>)
    requires Enabled(s, a) && Loses(Step(s, a, AsWritten), acts)
    ensures Loses(s, [a] + acts)
  {
    assert ([a] + acts)[1..] == acts;
  }

  /** An append gets as far as its swap. */
  lemma Appending<V>(s: State<V>, v: V) returns (t: Tid, p: Ptr)
    requires Inv(s) && s.pc.Idle?
    ensures Enabled(s, Alloc(t, p, v))
    ensures var s1 := Step(s, Alloc(t, p, v), AsWritten);
            Enabled(s1, Action<V>.Swap(t)) &&
            var s2 := Step(s1, Action<V>.Swap(t), AsWritten);
            Inv(s2) && s2.pc.Idle? && s2.head == s.head && s2.tail != s.head &&
            t in s2.appends && s2.appends[t] == Swapped(s.tail, p)
  {
    t := Greater(s.appends.Keys);
    p := Greater(s.heap.Keys);
    var s1 := Step(s, Alloc(t, p, v), AsWritten);
    StepInv(s, Alloc(t, p, v));
    StepInv(s1, Action<V>.Swap(t));
  }

  /** Once swaps are let in, no state is safe: from every state without a dequeue under way, some run loses
      elements. */
  lemma {:induction false} SwapsEndanger<V>(s: State<V>, v: V) returns (acts: seq<Action<V>>)
    requires Inv(s) && s.pc.Idle?
    ensures Loses(s, acts)
    decreases s.head == s.tail
  {
    var t, p := Appending(s, v);
    var s1 := Step(s, Alloc(t, p, v), AsWritten);
    var s2 := Step(s1, Action<V>.Swap(t), AsWritten);
    if s.head == s.tail {
      StepInv(s2, Action<V>.Link(t));
      acts := SwapsEndanger(Step(s2, Action<V>.Link(t), AsWritten), v);
      LosesLater(s2, Link(t), acts);
      acts := [Link(t)] + acts;
    } else {
      acts := ReachesWait(s2, t);
      acts := WaitLoses(s2, acts);
    }
    LosesLater(s1, Swap(t), acts);
    LosesLater(s, Alloc(t, p, v), [Swap(t)] + acts);
    acts := [Alloc(t, p, v)] + ([Swap(t)] + acts);
  }

  /** It can go well after a failed swap: the test at line 92 passes while the link is missing, and the
      append writes the link before the dequeuer reads it. */
  lemma AsWrittenRecovers<V>(s: State<V>)
    requires Inv(s) && s.pc.Waiting? && s.heap[s.pc.elem].next == None
    ensures exists t ::
              var s1 := DeqStep(s, AsWritten);
              Enabled(s1, Action<V>.Link(t)) &&
              var s4 := DeqSteps(Step(s1, Action<V>.Link(t), AsWritten), 2, AsWritten);
              Inv(s4) && s4.pc == Taken(s.pc.elem)
  {
    var t := AwaitedAppend(s);
    var s1 := DeqStep(s, AsWritten);
    var s2 := Step(s1, Action<V>.Link(t), AsWritten);
    var s3 := DeqStep(s2, AsWritten);
    IntactStep(s, Action<V>.Deq);
    IntactStep(s1, Action<V>.Link(t));
    IntactStep(s2, Action<V>.Deq);
    IntactStep(s3, Action<V>.Deq);
    assert DeqSteps(s2, 1, AsWritten) == s3;
    assert DeqSteps(s2, 2, AsWritten) == DeqStep(s3, AsWritten);
  }

  // ---------- A swap can fail ----------

  /** One append is complete ... */
  function FirstAppended<V>(blank: V, v: V): State<V> {
    State(map[0 := Elem(blank, Some(1)), 1 := Elem(v, None)], 0, 1, map[], Idle, [1], [v], [], false)
  }

  /** ... the dequeuer has cut its element off ... */
  function CutOff<V>(blank: V, v: V): State<V> {
    State(map[0 := Elem(blank, None), 1 := Elem(v, None)], 0, 1, map[], Detached(1), [1], [v], [], false)
  }

  /** ... and another append has swapped the tail. */
  function FailedSwap<V>(blank: V, v: V, w: V): State<V> {
    State(map[0 := Elem(blank, None), 1 := Elem(v, None), 2 := Elem(w, None)], 0, 2,
          map[1 := Swapped(1, 2)], Waiting(1), [1, 2], [v, w], [], false)
  }

  /** The same with the second append's link written before the loop is reached. */
  function FailedSwapLinked<V>(blank: V, v: V, w: V): State<V> {
    State(map[0 := Elem(blank, None), 1 := Elem(v, Some(2)), 2 := Elem(w, None)], 0, 2,
          map[], Waiting(1), [1, 2], [v, w], [], false)
  }

  /** Under either reading, a run leads from one state to another. */
  ghost predicate Leads<V>(s: State<V>, acts: seq<Action<V>>, s': State<V>) {
    forall w: Wait :: Possible(s, acts, w) && Run(s, acts, w) == s'
  }

  lemma LeadsNext<V>(s: State<V>, acts: seq<Action<V>>, m: State<V>, a: Action<V>)
    requires Leads(s, acts, m) && Enabled(m, a) && (a.Deq? ==> !m.pc.Waiting?)
    ensures Leads(s, acts + [a], Step(m, a, AsWritten))
  {
    forall w: Wait ensures Possible(s, acts + [a], w) && Run(s, acts + [a], w) == Step(m, a, AsWritten) {
      var s' := Step(m, a, w);
      assert s' == Step(m, a, AsWritten) && [a][1..] == [];
      assert Possible(s', [], w) && Run(s', [], w) == s';
      assert Possible(m, [a], w) && Run(m, [a], w) == s';
      RunOn(s, acts, [a], w);
    }
  }

  lemma LeadsToAppended<V>(blank: V, v: V) returns (acts: seq<Action<V>>)
    ensures Leads(Created(0, blank), acts, FirstAppended(blank, v))
  {
    var s := Created(0, blank);
    assert Leads(s, [], s);
    var s1 := Step(s, Alloc(0, 1, v), AsWritten);
    LeadsNext(s, [], s, Alloc(0, 1, v));
    var s2 := Step(s1, Swap(0), AsWritten);
    acts := [] + [Alloc(0, 1, v)];
    LeadsNext(s, acts, s1, Swap(0));
    acts := acts + [Swap(0)];
    LeadsNext(s, acts, s2, Link(0));
    acts := acts + [Link(0)];
    assert Step(s2, Link(0), AsWritten) == FirstAppended(blank, v);
  }

  lemma LeadsToCutOff<V>(blank: V, v: V) returns (acts: seq<Action<V>>)
    ensures Leads(Created(0, blank), acts, CutOff(blank, v))
  {
    acts := LeadsToAppended(blank, v);
    var s, m := Created(0, blank), FirstAppended(blank, v);
    var i := 0;
    while i < 5
      invariant 0 <= i <= 5 && Leads(s, acts, m)
      invariant m == if i < 5 then FirstAppended(blank, v).(pc := [Idle, NonEmpty, HasFirst, GotElem(1), Alone(1)][i])
                     else CutOff(blank, v)
    {
      LeadsNext(s, acts, m, Deq);
      acts, m, i := acts + [Deq], Step(m, Deq, AsWritten), i + 1;
    }
  }

  lemma LeadsToFailedSwap<V>(blank: V, v: V, w: V) returns (acts: seq<Action<V>>)
    ensures Leads(Created(0, blank), acts, FailedSwap(blank, v, w))
  {
    acts := LeadsToCutOff(blank, v);
    var s, m := Created(0, blank), CutOff(blank, v);
    var m1 := Step(m, Alloc(1, 2, w), AsWritten);
    LeadsNext(s, acts, m, Alloc(1, 2, w));
    acts := acts + [Alloc(1, 2, w)];
    var m2 := Step(m1, Swap(1), AsWritten);
    LeadsNext(s, acts, m1, Swap(1));
    acts := acts + [Swap(1)];
    LeadsNext(s, acts, m2, Deq);
    acts := acts + [Deq];
    assert Step(m2, Deq, AsWritten) == FailedSwap(blank, v, w);
  }

  /** From an empty list a run leads to each of the states from which the two readings part: the swap has
      failed, with the link still missing, and with the link written. */
  lemma SwapCanFail<V>(blank: V, v: V, w: V)
    ensures exists acts :: Leads(Created(0, blank), acts, FailedSwap(blank, v, w))
    ensures exists acts :: Leads(Created(0, blank), acts, FailedSwapLinked(blank, v, w))
    ensures Inv(FailedSwap(blank, v, w)) && Inv(FailedSwapLinked(blank, v, w))
  {
    var s, m := Created(0, blank), FailedSwap(blank, v, w);
    var acts := LeadsToFailedSwap(blank, v, w);
    LeadsNext(s, acts, m, Link(1));
    assert Step(m, Link(1), AsWritten) == FailedSwapLinked(blank, v, w);
    CreatedInv(0, blank);
    assert Possible(s, acts, AsDocumented) && Run(s, acts, AsDocumented) == m;
    RunInv(s, acts);
    StepInv(m, Action<V>.Link(1));
  }

  lemma LateStep<V>(s: State<V>, e: Ptr)
    requires s.queue != [] && s.head in s.heap && s.heap[s.head].next == None && s.pc == GotLate(e, None)
    ensures DeqStep(s, AsWritten) == s.(queue := s.queue[1..], pc := Taken(e))
  {
    assert s.heap[s.head := s.heap[s.head].(next := None)] == s.heap;
  }

  lemma ThreeSteps<V>(s: State<V>)
    requires Inv(s) && s.pc.Waiting? && s.heap[s.pc.elem].next == None
    ensures DeqSteps(s, 3, AsWritten) == s.(queue := s.queue[1..], pc := Taken(s.pc.elem))
  {
    var s1, s2 := s.(pc := Appeared(s.pc.elem)), s.(pc := GotLate(s.pc.elem, None));
    assert DeqSteps(s, 1, AsWritten) == DeqStep(s, AsWritten) == s1;
    assert DeqSteps(s, 2, AsWritten) == DeqStep(s1, AsWritten) == s2;
    LateStep(s2, s.pc.elem);
  }

  /** If the link is not there yet and the dequeuer's next three steps come first, the code goes on at
      once: the head loses every remaining element, with nobody about to link it. */
  lemma AsWrittenLoses<V>(s: State<V>)
    requires Inv(s) && s.pc.Waiting? && s.heap[s.pc.elem].next == None
    ensures var s' := DeqSteps(s, 3, AsWritten);
            !s'.fault && s'.pc == Taken(s.pc.elem) && s'.queue == s.queue[1..] && s'.queue != [] &&
            s'.appends == s.appends && s'.head == s.head && s'.heap.Keys == s.heap.Keys
    ensures var s' := DeqSteps(s, 3, AsWritten);
            s'.heap[s'.head].next == None &&
            forall t :: t in s'.appends ==> s'.appends[t] != Swapped(s'.head, s'.queue[0])
  {
    ThreeSteps(s);
    forall t | t in s.appends ensures s.appends[t] != Swapped(s.head, s.queue[1]) {
      assert AppendOk(s, s.appends[t]);
    }
  }

  /** After two more such steps, the append that was awaited writes to freed memory. */
  lemma {:induction false} AsWrittenFaults<V>(s: State<V>)
    requires Inv(s) && s.pc.Waiting? && s.heap[s.pc.elem].next == None
    ensures var s' := DeqSteps(s, 5, AsWritten);
            s'.pc.Idle? && !s'.fault &&
            exists t :: t in s'.appends && s'.appends[t].Swapped? && Step(s', Action<V>.Link(t), AsWritten).fault
  {
    var t := AwaitedAppend(s);
    AsWrittenLoses(s);
    var e := s.pc.elem;
    var s3 := DeqSteps(s, 3, AsWritten);
    var s4, s5 := DeqSteps(s, 4, AsWritten), DeqSteps(s, 5, AsWritten);
    assert s4 == DeqStep(s3, AsWritten) && s5 == DeqStep(s4, AsWritten);
    assert s4.heap == s3.heap && s4.pc.Freeing? && s4.pc.elem == e;
    assert e !in s5.heap && s5.appends[t] == Swapped(e, s.queue[1]);
  }

  /** If the link is there when the loop tests it, the loop never ends, whatever the other threads do. */
  lemma {:induction false} AsWrittenSpins<V>(s: State<V>, acts: seq<Action<V>>)
    requires Inv(s) && s.pc.Waiting? && s.heap[s.pc.elem].next.Some? && Possible(s, acts, AsWritten)
    ensures Run(s, acts, AsWritten).pc == s.pc && Run(s, acts, AsWritten).returned == s.returned
    decreases |acts|
  {
    if acts != [] {
      var s' := Step(s, acts[0], AsWritten);
      if !acts[0].Deq? {
        StepInv(s, acts[0]);
        assert s' == Step(s, acts[0], AsDocumented);
      }
      AsWrittenSpins(s', acts[1..]);
    }
  }
}

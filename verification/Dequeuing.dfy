/** That a dequeue returns, and what: over any interleaving, and in full detail when nothing else happens. */
module Dequeuing {
  import opened Options
  import opened TsList
  import opened WaitReadings

  // ---------- A dequeue returns ----------

  /** The steps of its own that the dequeuer has left at most. */
  function StepsLeft<V>(pc: Dequeue<V>): (n: nat)
    ensures n <= 10 && (n == 0 <==> pc.Idle?)
  {
    match pc
    case Idle => 0
    case NonEmpty => 10
    case HasFirst => 9
    case GotElem(_) => 8
    case Alone(_) => 7
    case Detached(_) => 6
    case HasNext(_) => 5
    case Waiting(_) => 5
    case GotNext(_, _) => 4
    case Appeared(_) => 4
    case Unlinked(_) => 3
    case GotLate(_, _) => 3
    case Taken(_) => 2
    case Freeing(_, _) => 1
  }

  /** The dequeuer is in the wait, and the link is not there. */
  predicate Stalls<V>(s: State<V>) {
    s.pc.Waiting? && s.pc.elem in s.heap && s.heap[s.pc.elem].next.None?
  }

  /** How many steps of the dequeuer there are. */
  function DeqsIn<V>(acts: seq<Action<V>>): nat {
    if acts == [] then 0 else DeqsIn(acts[1..]) + if acts[0].Deq? then 1 else 0
  }

  /** And how many of them are spent in the wait for a missing link. */
  function StallsIn<V>(s: State<V>, acts: seq<Action<V>>): nat
    requires Possible(s, acts, AsDocumented)
    decreases |acts|
  {
    if acts == [] then 0
    else StallsIn(Step(s, acts[0], AsDocumented), acts[1..]) + if acts[0].Deq? && Stalls(s) then 1 else 0
  }

  /** Each step of the dequeuer outside such a wait brings it closer to its return, and nobody else's step
      takes it away. */
  lemma StepsCloser<V>(s: State<V>, a: Action<V>)
    requires Inv(s) && Enabled(s, a) && !s.pc.Idle?
    ensures var s' := Step(s, a, AsDocumented);
            if a.Deq? && !Stalls(s) then StepsLeft(s'.pc) < StepsLeft(s.pc) else s'.pc == s.pc
  {
    if !a.Deq? && !a.Alloc? {
      assert AppendOk(s, s.appends[a.t]);
    }
  }

  /** Whatever the appenders do: when the dequeuer has made as many steps as it had left, not counting those
      in the wait for a missing link, it has returned. */
  lemma {:induction false} DequeueReturns<V>(s: State<V>, acts: seq<Action<V>>) returns (n: nat)
    requires Inv(s) && Possible(s, acts, AsDocumented)
    requires DeqsIn(acts) >= StepsLeft(s.pc) + StallsIn(s, acts)
    ensures n <= |acts| && Possible(s, acts[..n], AsDocumented) && Run(s, acts[..n], AsDocumented).pc.Idle?
    decreases |acts|
  {
    if s.pc.Idle? {
      n := 0;
    } else {
      StepsCloser(s, acts[0]);
      StepInv(s, acts[0]);
      var m := DequeueReturns(Step(s, acts[0], AsDocumented), acts[1..]);
      n := m + 1;
      assert acts[..n][0] == acts[0] && acts[..n][1..] == acts[1..][..m];
    }
  }

  // ---------- What it returns ----------

  /** The dequeuer has found an element. */
  predicate Underway<V>(pc: Dequeue<V>) {
    !pc.Idle? && !pc.NonEmpty?
  }

  /** The value it is going to return. */
  ghost function Promised<V>(s: State<V>): V
    requires Inv(s) && Underway(s.pc)
  {
    if InHand(s.pc) then s.heap[s.pc.elem].ptr else s.heap[s.queue[0]].ptr
  }

  lemma PromiseDeq<V>(s: State<V>)
    requires Inv(s) && Underway(s.pc)
    ensures var s' := DeqStep(s, AsDocumented);
            Inv(s') &&
            if s'.pc.Idle? then s'.returned == s.returned + [Promised(s)]
            else Underway(s'.pc) && Promised(s') == Promised(s) && s'.returned == s.returned
  {
    DeqInv(s);
  }

  lemma PromiseOther<V>(s: State<V>, a: Action<V>)
    requires Inv(s) && Underway(s.pc) && Enabled(s, a) && !a.Deq?
    ensures var s' := Step(s, a, AsDocumented);
            Inv(s') && s'.pc == s.pc && Promised(s') == Promised(s) && s'.returned == s.returned
  {
    StepInv(s, a);
    if !a.Alloc? {
      assert AppendOk(s, s.appends[a.t]);
    }
  }

  lemma PromiseKept<V>(s: State<V>, a: Action<V>)
    requires Inv(s) && Underway(s.pc) && Enabled(s, a)
    ensures var s' := Step(s, a, AsDocumented);
            Inv(s') &&
            if s'.pc.Idle? then s'.returned == s.returned + [Promised(s)]
            else Underway(s'.pc) && Promised(s') == Promised(s) && s'.returned == s.returned
  {
    if a.Deq? { PromiseDeq(s); } else { PromiseOther(s, a); }
  }

  /** Once the first link has been read, a dequeue returns the value that was first in the list then, and
      that one only, whatever the appenders do meanwhile. */
  lemma {:induction false} DequeueDelivers<V>(s: State<V>, acts: seq<Action<V>>) returns (n: nat)
    requires Inv(s) && Underway(s.pc) && Possible(s, acts, AsDocumented)
    requires DeqsIn(acts) >= StepsLeft(s.pc) + StallsIn(s, acts)
    ensures n <= |acts| && Possible(s, acts[..n], AsDocumented)
    ensures var s' := Run(s, acts[..n], AsDocumented); s'.pc.Idle? && s'.returned == s.returned + [Promised(s)]
    decreases |acts|
  {
    var s' := Step(s, acts[0], AsDocumented);
    StepsCloser(s, acts[0]);
    PromiseKept(s, acts[0]);
    n := 1;
    if s'.pc.Idle? {
      assert acts[..1][1..] == [] && acts[..1][0] == acts[0];
    } else {
      var m := DequeueDelivers(s', acts[1..]);
      n := m + 1;
      assert acts[..n][0] == acts[0] && acts[..n][1..] == acts[1..][..m];
    }
  }

  // ---------- When nothing else happens ----------

  /** An empty list: nothing is returned, nothing changes, in one step; otherwise the dequeue goes on. */
  lemma EmptyHanded<V>(s: State<V>, w: Wait)
    requires Inv(s) && s.pc.Idle?
    ensures if s.queue == [] then DeqStep(s, w) == s else DeqStep(s, w) == s.(pc := NonEmpty)
  {
    if s.queue != [] { AtDistinct(s, 0, |s.queue|); }
  }

  /** A list whose first link is still to be written: again nothing is returned and nothing changes; and the
      dequeuer is idle again after two steps. */
  lemma LinkMissing<V>(s: State<V>, w: Wait)
    requires Inv(s) && s.pc.Idle? && s.queue != [] && s.heap[s.head].next == None
    ensures DeqSteps(s, 2, w) == s
  {
    EmptyHanded(s, w);
    assert DeqSteps(s, 1, w) == DeqStep(s, w);
  }

  /** No append is between its swap and its link, and the dequeuer is not past a failed swap. */
  ghost predicate Undisturbed<V>(s: State<V>) {
    Calm(s) && forall t :: t in s.appends ==> s.appends[t].Ready?
  }

  lemma QuietStep<V>(s: State<V>)
    requires Undisturbed(s) && Underway(s.pc)
    ensures var s' := DeqStep(s, AsDocumented);
            Undisturbed(s') && s'.appends == s.appends && s'.appended == s.appended && s'.head == s.head &&
            StepsLeft(s'.pc) < StepsLeft(s.pc)
  {
    CalmDeq(s);
    StepsCloser(s, Action<V>.Deq);
  }

  /** The dequeuer has returned `v` and nobody else has done anything. */
  ghost predicate Delivered<V>(s: State<V>, s': State<V>, v: V) {
    && Inv(s') && Quiet(s') && s'.returned == s.returned + [v]
    && s'.appends == s.appends && s'.appended == s.appended && s'.head == s.head
  }

  lemma {:induction false} QuietFinish<V>(s: State<V>) returns (n: nat)
    requires Undisturbed(s) && Underway(s.pc)
    ensures n <= StepsLeft(s.pc) && Delivered(s, DeqSteps(s, n, AsDocumented), Promised(s))
    decreases StepsLeft(s.pc)
  {
    var s', v := DeqStep(s, AsDocumented), Promised(s);
    QuietStep(s);
    PromiseKept(s, Action<V>.Deq);
    if s'.pc.Idle? {
      n := 1;
      assert Delivered(s, s', v);
      assert DeqSteps(s, 0, AsDocumented) == s;
    } else {
      var m := QuietFinish(s');
      assert Delivered(s, DeqSteps(s', m, AsDocumented), v);
      n := 1 + m;
      DeqSplit(s, 1, m, AsDocumented);
      assert DeqSteps(s, 0, AsDocumented) == s;
    }
  }

  /** The first two steps of a dequeue from a quiet list. */
  lemma QuietStart<V>(s: State<V>)
    requires Inv(s) && Quiet(s) && s.queue != []
    ensures var s2 := s.(pc := HasFirst);
            DeqSteps(s, 2, AsDocumented) == s2 && Undisturbed(s2) && Promised(s2) == s.heap[s.queue[0]].ptr
  {
    var s1 := s.(pc := NonEmpty);
    EmptyHanded(s, AsDocumented);
    assert LinkOrPending(s, 0);
    DeqInv(s);
    DeqInv(s1);
    assert DeqSteps(s, 1, AsDocumented) == DeqStep(s, AsDocumented) == s1;
    assert DeqSteps(s, 2, AsDocumented) == DeqStep(s1, AsDocumented);
  }

  lemma {:induction false} DeqSplit<V>(s: State<V>, m: nat, n: nat, w: Wait)
    ensures DeqSteps(s, m + n, w) == DeqSteps(DeqSteps(s, m, w), n, w)
    decreases n
  {
    if n > 0 {
      DeqSplit(s, m, n - 1, w);
      var before := DeqSteps(s, m + n - 1, w);
      assert DeqSteps(s, m + n, w) == DeqStep(before, w);
      assert DeqSteps(DeqSteps(s, m, w), n, w) == DeqStep(before, w);
    }
  }

  lemma QuietDelivery<V>(s: State<V>) returns (n: nat)
    requires Inv(s) && Quiet(s) && s.queue != []
    ensures n <= 11 && Delivered(s, DeqSteps(s, n, AsDocumented), s.heap[s.queue[0]].ptr)
  {
    var s2 := s.(pc := HasFirst);
    QuietStart(s);
    var m := QuietFinish(s2);
    assert Delivered(s, DeqSteps(s2, m, AsDocumented), s.heap[s.queue[0]].ptr);
    n := 2 + m;
    DeqSplit(s, 2, m, AsDocumented);
  }

  /** In a quiet state a dequeue of its own returns the first value, within eleven steps, and leaves the rest
      in order, all linked; an empty list it leaves as it is. */
  lemma QuietDequeue<V>(s: State<V>) returns (n: nat)
    requires Inv(s) && Quiet(s)
    ensures n <= 11
    ensures var s' := DeqSteps(s, n, AsDocumented);
            if s.queue == [] then s' == s && n == 1
            else Inv(s') && Quiet(s') && s'.appends == s.appends && s'.head == s.head &&
                 s'.returned == s.returned + [s.heap[s.queue[0]].ptr] &&
                 Values(s'.heap, s'.queue) == Values(s.heap, s.queue)[1..] && Walks(s'.heap, s'.head, s'.queue)
  {
    if s.queue == [] {
      n := 1;
      EmptyHanded(s, AsDocumented);
      assert DeqSteps(s, 0, AsDocumented) == s;
    } else {
      n := QuietDelivery(s);
      RestOfValues(s, DeqSteps(s, n, AsDocumented));
      QuietState(DeqSteps(s, n, AsDocumented));
    }
  }

  lemma RestOfValues<V>(s: State<V>, s': State<V>)
    requires Inv(s) && Inv(s') && s.pc.Idle? && s'.pc.Idle? && s.queue != []
    requires s'.appended == s.appended && s'.returned == s.returned + [s.heap[s.queue[0]].ptr]
    ensures Values(s'.heap, s'.queue) == Values(s.heap, s.queue)[1..]
  {
    var v, v' := Values(s.heap, s.queue), Values(s'.heap, s'.queue);
    assert s.appended == s.returned + v && s'.appended == s.returned + [v[0]] + v';
    assert s.appended[|s.returned|..] == v && s'.appended[|s.returned|..] == [v[0]] + v';
  }

  // ---------- What is appended ----------

  lemma ElementKeptDeq<V>(s: State<V>, t: Tid, e: Ptr)
    requires Inv(s) && t in s.appends && s.appends[t] == Ready(e)
    ensures var s' := DeqStep(s, AsDocumented);
            s'.appends == s.appends && e in s'.heap && s'.heap[e].ptr == s.heap[e].ptr
  {
    assert AppendOk(s, s.appends[t]);
  }

  /** An element that is not in the list yet belongs to its append alone. */
  lemma ElementKept<V>(s: State<V>, t: Tid, e: Ptr, a: Action<V>)
    requires Inv(s) && t in s.appends && s.appends[t] == Ready(e) && Enabled(s, a) && a != Action<V>.Swap(t)
    ensures var s' := Step(s, a, AsDocumented);
            Inv(s') && t in s'.appends && s'.appends[t] == Ready(e) && s'.heap[e].ptr == s.heap[e].ptr
  {
    StepInv(s, a);
    assert AppendOk(s, s.appends[t]);
    if a.Deq? { ElementKeptDeq(s, t, e); }
  }

  lemma {:induction false} ElementWaits<V>(s: State<V>, t: Tid, e: Ptr, acts: seq<Action<V>>)
    requires Inv(s) && t in s.appends && s.appends[t] == Ready(e)
    requires Possible(s, acts, AsDocumented) && forall i :: 0 <= i < |acts| ==> acts[i] != Action<V>.Swap(t)
    ensures var s' := Run(s, acts, AsDocumented);
            Inv(s') && t in s'.appends && s'.appends[t] == Ready(e) && s'.heap[e].ptr == s.heap[e].ptr
    decreases |acts|
  {
    if acts != [] {
      ElementKept(s, t, e, acts[0]);
      ElementWaits(Step(s, acts[0], AsDocumented), t, e, acts[1..]);
    }
  }

  /** Whatever happens between: an append puts the value it was called with, once, at the end of the list. */
  lemma AppendDelivers<V>(s: State<V>, t: Tid, p: Ptr, v: V, acts: seq<Action<V>>)
    requires Inv(s) && Enabled(s, Alloc(t, p, v)) && Possible(Step(s, Alloc(t, p, v), AsDocumented), acts, AsDocumented)
    requires forall i :: 0 <= i < |acts| ==> acts[i] != Action<V>.Swap(t)
    ensures var s1 := Run(Step(s, Alloc(t, p, v), AsDocumented), acts, AsDocumented);
            Enabled(s1, Action<V>.Swap(t)) &&
            var s2 := Step(s1, Action<V>.Swap(t), AsDocumented);
            s2.appended == s1.appended + [v] && s2.queue == s1.queue + [p] && s2.tail == p
  {
    StepInv(s, Alloc(t, p, v));
    ElementWaits(Step(s, Alloc(t, p, v), AsDocumented), t, p, acts);
    var s1 := Run(Step(s, Alloc(t, p, v), AsDocumented), acts, AsDocumented);
    assert AppendOk(s1, s1.appends[t]);
  }
}

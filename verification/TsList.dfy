/** The lock-free list of `mpiP-tslist.c`: any number of appenders and one dequeuer, interleaved at
    every access to shared memory (sequential consistency is assumed). */
module TsList {
  import opened Options

  /** Addresses, and identities of appending threads. Freed addresses may be handed out again. */
  type Ptr = int

  type Tid = int

  datatype Elem<+V> = Elem(ptr: V, next: Option<Ptr>)

  /** An append in flight: its element is initialised but private, or it is already the tail and the
      link from the previous tail is still to be written. */
  datatype Append = Ready(elem: Ptr) | Swapped(prev: Ptr, elem: Ptr)

  /** Where the dequeuer stands, with the values it has read. */
  datatype Dequeue<+V> =
    | Idle
    | NonEmpty                                // head and tail differ
    | HasFirst                                // head->next was not NULL
    | GotElem(elem: Ptr)                      // elem = head->next
    | HasNext(elem: Ptr)                      // elem->next was not NULL
    | GotNext(elem: Ptr, next: Option<Ptr>)   // the right-hand side of head->next = elem->next
    | Unlinked(elem: Ptr)                     // head->next is written
    | Alone(elem: Ptr)                        // elem->next was NULL
    | Detached(elem: Ptr)                     // head->next = NULL is written, before the swap
    | Waiting(elem: Ptr)                      // the swap failed
    | Appeared(elem: Ptr)                     // the wait is over
    | GotLate(elem: Ptr, next: Option<Ptr>)   // the right-hand side of head->next = elem->next
    | Taken(elem: Ptr)                        // at the label ret
    | Freeing(elem: Ptr, ret: V)

  /** The shared memory and all threads. `queue` is auxiliary: the elements that were swapped in and
      not yet taken off. `appended` and `returned` record the values in tail-swap order and in the
      order of return; `fault` is set by any access through a pointer to memory not allocated. */
  datatype State<+V> = State(
    heap: map<Ptr, Elem<V>>, head: Ptr, tail: Ptr,
    appends: map<Tid, Append>, pc: Dequeue<V>,
    queue: seq<Ptr>, appended: seq<V>, returned: seq<V>, fault: bool)

  // ---------- Steps ----------

  datatype Action<+V> =
    | Alloc(t: Tid, p: Ptr, v: V)
    | Swap(t: Tid)
    | Link(t: Tid)
    | Deq

  predicate Enabled<V>(s: State<V>, a: Action<V>) {
    match a
    case Alloc(t, p, _) => t !in s.appends && p !in s.heap
    case Swap(t) => t in s.appends && s.appends[t].Ready?
    case Link(t) => t in s.appends && s.appends[t].Swapped?
    case Deq => true
  }

  /** `p->next = n` */
  function SetNext<V>(s: State<V>, p: Ptr, n: Option<Ptr>): State<V> {
    if p in s.heap then s.(heap := s.heap[p := s.heap[p].(next := n)]) else s.(fault := true)
  }

  /** Which of the two readings of the loop at line 92 is meant: the comment's or the text's. */
  datatype Wait = AsDocumented | AsWritten

  function LeavesWait(w: Wait, next: Option<Ptr>): bool {
    match w
    case AsDocumented => next.Some?
    case AsWritten => next.None?
  }

  function DeqStep<V>(s: State<V>, w: Wait): State<V> {
    match s.pc
    case Idle => if s.head == s.tail then s else s.(pc := NonEmpty)
    case NonEmpty =>
      if s.head !in s.heap then s.(fault := true)
      else if s.heap[s.head].next.None? then s.(pc := Idle)
      else s.(pc := HasFirst)
    case HasFirst =>
      if s.head !in s.heap || s.heap[s.head].next.None? then s.(fault := true)
      else s.(pc := GotElem(s.heap[s.head].next.value))
    case GotElem(e) =>
      if e !in s.heap then s.(fault := true)
      else if s.heap[e].next.Some? then s.(pc := HasNext(e))
      else s.(pc := Alone(e))
    case HasNext(e) =>
      if e !in s.heap then s.(fault := true) else s.(pc := GotNext(e, s.heap[e].next))
    case GotNext(e, n) => Dropped(SetNext(s, s.head, n).(pc := Unlinked(e)))
    case Unlinked(e) => SetNext(s, e, None).(pc := Taken(e))
    case Alone(e) => SetNext(s, s.head, None).(pc := Detached(e))
    case Detached(e) =>
      if s.tail == e then Dropped(s.(tail := s.head, pc := Taken(e))) else s.(pc := Waiting(e))
    case Waiting(e) =>
      if e !in s.heap then s.(fault := true)
      else if LeavesWait(w, s.heap[e].next) then s.(pc := Appeared(e))
      else s
    case Appeared(e) =>
      if e !in s.heap then s.(fault := true) else s.(pc := GotLate(e, s.heap[e].next))
    case GotLate(e, n) => Dropped(SetNext(s, s.head, n).(pc := Taken(e)))
    case Taken(e) =>
      if e !in s.heap then s.(fault := true) else s.(pc := Freeing(e, s.heap[e].ptr))
    case Freeing(e, v) =>
      s.(heap := s.heap - {e}, pc := Idle, returned := s.returned + [v],
         fault := s.fault || e !in s.heap)
  }

  /** The first element leaves the auxiliary queue. */
  function Dropped<V>(s: State<V>): State<V> {
    if s.queue == [] then s else s.(queue := s.queue[1..])
  }

  function Step<V>(s: State<V>, a: Action<V>, w: Wait): State<V>
    requires Enabled(s, a)
  {
    match a
    case Alloc(t, p, v) => s.(heap := s.heap[p := Elem(v, None)], appends := s.appends[t := Ready(p)])
    case Swap(t) =>
      var e := s.appends[t].elem;
      if e !in s.heap then s.(fault := true)
      else s.(appends := s.appends[t := Swapped(s.tail, e)], tail := e,
              queue := s.queue + [e], appended := s.appended + [s.heap[e].ptr])
    case Link(t) =>
      var a := s.appends[t];
      SetNext(s, a.prev, Some(a.elem)).(appends := s.appends - {t})
    case Deq => DeqStep(s, w)
  }

  predicate Possible<V>(s: State<V>, acts: seq<Action<V>>, w: Wait)
    decreases |acts|
  {
    acts == [] || (Enabled(s, acts[0]) && Possible(Step(s, acts[0], w), acts[1..], w))
  }

  function Run<V>(s: State<V>, acts: seq<Action<V>>, w: Wait): State<V>
    requires Possible(s, acts, w)
    decreases |acts|
  {
    if acts == [] then s else Run(Step(s, acts[0], w), acts[1..], w)
  }

  /** `mpiPi_tslist_create`: a head element that carries no value of the list. */
  function Created<V>(head: Ptr, blank: V): State<V> {
    State(map[head := Elem(blank, None)], head, head, map[], Idle, [], [], [], false)
  }

  // ---------- The invariant ----------

  /** Element number `i` of the chain: the head, then the queue. */
  function At<V>(s: State<V>, i: nat): Ptr
    requires i <= |s.queue|
  {
    if i == 0 then s.head else s.queue[i - 1]
  }

  /** The dequeuer has cut the first element off and not yet handed its successor to the head. */
  predicate Handing<V>(pc: Dequeue<V>) {
    pc.Detached? || pc.Waiting? || pc.Appeared? || pc.GotLate?
  }

  /** The dequeuer owns an element that is off the list. */
  predicate InHand<V>(pc: Dequeue<V>) {
    pc.Unlinked? || pc.Taken? || pc.Freeing?
  }

  ghost predicate Chain<V>(s: State<V>) {
    && s.head in s.heap && (forall i :: 0 <= i < |s.queue| ==> s.queue[i] in s.heap && s.queue[i] != s.head)
    && (forall i, j :: 0 <= i < j < |s.queue| ==> s.queue[i] != s.queue[j])
    && s.tail == At(s, |s.queue|)
    && s.heap[s.tail].next == None
  }

  /** The link behind `At(i)` is there, or some append is about to write it, or the dequeuer is. */
  ghost predicate LinkOrPending<V>(s: State<V>, i: nat)
    requires i < |s.queue| && Chain(s)
  {
    s.heap[At(s, i)].next == Some(s.queue[i]) ||
    (s.heap[At(s, i)].next == None &&
     ((i == 0 && Handing(s.pc)) || exists t :: t in s.appends && s.appends[t] == Swapped(At(s, i), s.queue[i])))
  }

  /** The append of `t` holds an element that the queue has right behind its predecessor. */
  ghost predicate HoldsLink<V>(s: State<V>, a: Append)
    requires a.Swapped? && Chain(s)
  {
    exists i: nat :: i < |s.queue| && s.queue[i] == a.elem && At(s, i) == a.prev && s.heap[a.prev].next == None
  }

  ghost predicate AppendOk<V>(s: State<V>, a: Append)
    requires Chain(s)
  {
    match a
    case Ready(e) =>
      e in s.heap && s.heap[e].next == None && e != s.head && e !in s.queue && (InHand(s.pc) ==> e != s.pc.elem)
    case Swapped(p, e) => HoldsLink(s, a) && (Handing(s.pc) ==> p != s.head)
  }

  ghost predicate PcOk<V>(s: State<V>)
    requires Chain(s)
  {
    match s.pc
    case Idle => true
    case NonEmpty => s.queue != []
    case HasFirst => s.queue != [] && s.heap[s.head].next == Some(s.queue[0])
    case GotElem(e) => s.queue != [] && s.heap[s.head].next == Some(e) && e == s.queue[0]
    case HasNext(e) => s.queue != [] && s.heap[s.head].next == Some(e) && e == s.queue[0] && s.heap[e].next.Some?
    case GotNext(e, n) =>
      s.queue != [] && s.heap[s.head].next == Some(e) && e == s.queue[0] && n.Some? && s.heap[e].next == n
    case Alone(e) => s.queue != [] && s.heap[s.head].next == Some(e) && e == s.queue[0]
    case Detached(e) => s.queue != [] && s.heap[s.head].next == None && e == s.queue[0]
    case Waiting(e) => |s.queue| >= 2 && s.heap[s.head].next == None && e == s.queue[0]
    case Appeared(e) => s.queue != [] && s.heap[s.head].next == None && e == s.queue[0] && s.heap[e].next.Some?
    case GotLate(e, n) =>
      s.queue != [] && s.heap[s.head].next == None && e == s.queue[0] && n.Some? && s.heap[e].next == n
    case Unlinked(e) => e in s.heap && e != s.head && e !in s.queue
    case Taken(e) => e in s.heap && e != s.head && e !in s.queue
    case Freeing(e, v) => e in s.heap && e != s.head && e !in s.queue && v == s.heap[e].ptr
  }

  function Values<V>(heap: map<Ptr, Elem<V>>, q: seq<Ptr>): seq<V>
    requires forall i :: 0 <= i < |q| ==> q[i] in heap
  {
    seq(|q|, i requires 0 <= i < |q| => heap[q[i]].ptr)
  }

  /** The value that has left the list and is not yet returned, if any. */
  ghost function Held<V>(s: State<V>): seq<V>
    requires Chain(s) && PcOk(s)
  {
    if InHand(s.pc) then [s.heap[s.pc.elem].ptr] else []
  }

  ghost predicate Inv<V>(s: State<V>) {
    && !s.fault
    && Chain(s)
    && (forall i :: 0 <= i < |s.queue| ==> LinkOrPending(s, i))
    && (forall t :: t in s.appends ==> AppendOk(s, s.appends[t]))
    && (forall t, u :: t in s.appends && u in s.appends && t != u ==> s.appends[t].elem != s.appends[u].elem)
    && PcOk(s)
    && s.appended == s.returned + Held(s) + Values(s.heap, s.queue)
  }

  // ---------- Every step keeps the invariant ----------

  lemma AtDistinct<V>(s: State<V>, i: nat, j: nat)
    requires Chain(s) && i <= |s.queue| && j <= |s.queue| && i != j
    ensures At(s, i) != At(s, j) && At(s, i) in s.heap
  {
  }

  lemma CreatedInv<V>(head: Ptr, blank: V)
    ensures Inv(Created(head, blank))
  {
  }

  lemma AllocInv<V>(s: State<V>, t: Tid, p: Ptr, v: V)
    requires Inv(s) && Enabled(s, Alloc(t, p, v))
    ensures Inv(Step(s, Alloc(t, p, v), AsDocumented))
  {
    var s' := Step(s, Alloc(t, p, v), AsDocumented);
    assert Chain(s') && PcOk(s');
    forall i | 0 <= i < |s.queue| ensures LinkOrPending(s', i) {
      assert LinkOrPending(s, i);
      if u :| u in s.appends && s.appends[u] == Swapped(At(s, i), s.queue[i]) {
        assert u in s'.appends && s'.appends[u] == Swapped(At(s', i), s'.queue[i]);
      }
    }
    forall u | u in s'.appends ensures AppendOk(s', s'.appends[u]) {
      if u != t { AppendFrame(s, s', s.appends[u]); }
    }
    forall u | u in s.appends ensures s.appends[u].elem in s.heap {
      assert AppendOk(s, s.appends[u]);
    }
    assert Held(s') == Held(s) && Values(s'.heap, s'.queue) == Values(s.heap, s.queue);
  }

  /** An append that no step touches stays in order. */
  lemma AppendFrame<V>(s: State<V>, s': State<V>, a: Append)
    requires Chain(s) && Chain(s') && AppendOk(s, a)
    requires s'.head == s.head && s.queue <= s'.queue && Handing(s'.pc) == Handing(s.pc)
    requires InHand(s'.pc) ==> InHand(s.pc) && s'.pc.elem == s.pc.elem
    requires a.elem !in s'.queue[|s.queue|..]
    requires a.elem in s'.heap && (a.Ready? ==> s'.heap[a.elem].next == None)
    requires a.Swapped? ==> a.prev in s'.heap && s'.heap[a.prev].next == None
    ensures AppendOk(s', a)
  {
  }

  lemma SwapLink<V>(s: State<V>, t: Tid, i: nat)
    requires Inv(s) && Enabled(s, Action<V>.Swap(t)) && i <= |s.queue|
    ensures LinkOrPending(Step(s, Action<V>.Swap(t), AsDocumented), i)
  {
    var s' := Step(s, Action<V>.Swap(t), AsDocumented);
    if i < |s.queue| {
      assert LinkOrPending(s, i);
      if u :| u in s.appends && s.appends[u] == Swapped(At(s, i), s.queue[i]) {
        assert u in s'.appends && s'.appends[u] == Swapped(At(s', i), s'.queue[i]);
      }
    } else {
      assert t in s'.appends && s'.appends[t] == Swapped(At(s', i), s'.queue[i]);
    }
  }

  lemma SwapOwn<V>(s: State<V>, t: Tid)
    requires Inv(s) && Enabled(s, Action<V>.Swap(t))
    ensures var s' := Step(s, Action<V>.Swap(t), AsDocumented);
            t in s'.appends && Chain(s') && AppendOk(s', s'.appends[t])
  {
    var s' := Step(s, Action<V>.Swap(t), AsDocumented);
    assert AppendOk(s, s.appends[t]);
    var k := |s.queue|;
    assert s'.queue[k] == s.appends[t].elem && At(s', k) == s.tail && s'.heap[s.tail].next == None;
  }

  lemma SwapAppend<V>(s: State<V>, t: Tid, u: Tid)
    requires Inv(s) && Enabled(s, Action<V>.Swap(t)) && u in s.appends
    ensures var s' := Step(s, Action<V>.Swap(t), AsDocumented);
            u in s'.appends && Chain(s') && AppendOk(s', s'.appends[u])
  {
    SwapOwn(s, t);
    if u != t {
      AppendFrame(s, Step(s, Action<V>.Swap(t), AsDocumented), s.appends[u]);
    }
  }

  lemma SwapInv<V>(s: State<V>, t: Tid)
    requires Inv(s) && Enabled(s, Action<V>.Swap(t))
    ensures Inv(Step(s, Action<V>.Swap(t), AsDocumented))
  {
    var s' := Step(s, Action<V>.Swap(t), AsDocumented);
    var e := s.appends[t].elem;
    assert AppendOk(s, s.appends[t]);
    assert Chain(s') && PcOk(s');
    forall i | 0 <= i < |s'.queue| ensures LinkOrPending(s', i) {
      SwapLink(s, t, i);
    }
    forall u | u in s'.appends ensures AppendOk(s', s'.appends[u]) {
      SwapAppend(s, t, u);
    }
    assert Values(s'.heap, s'.queue) == Values(s.heap, s.queue) + [s.heap[e].ptr];
  }

  /** The place in the chain where the append of `t` links its element. */
  lemma LinkPlace<V>(s: State<V>, t: Tid) returns (k: nat)
    requires Inv(s) && Enabled(s, Action<V>.Link(t))
    ensures k < |s.queue| && s.queue[k] == s.appends[t].elem && At(s, k) == s.appends[t].prev
    ensures s.heap[At(s, k)].next == None && (Handing(s.pc) ==> k > 0)
    ensures forall i :: 0 <= i <= |s.queue| && i != k ==> At(s, i) != At(s, k) && At(s, i) in s.heap
  {
    assert AppendOk(s, s.appends[t]);
    k :| k < |s.queue| && s.queue[k] == s.appends[t].elem && At(s, k) == s.appends[t].prev &&
         s.heap[s.appends[t].prev].next == None;
    forall i | 0 <= i <= |s.queue| && i != k ensures At(s, i) != At(s, k) && At(s, i) in s.heap {
      AtDistinct(s, i, k);
    }
  }

  lemma LinkChain<V>(s: State<V>, t: Tid)
    requires Inv(s) && Enabled(s, Action<V>.Link(t))
    ensures var s' := Step(s, Action<V>.Link(t), AsDocumented);
            !s'.fault && Chain(s') && PcOk(s') && Held(s') == Held(s) &&
            Values(s'.heap, s'.queue) == Values(s.heap, s.queue)
  {
    var k := LinkPlace(s, t);
    assert At(s, |s.queue|) == s.tail;
  }

  lemma LinkInv<V>(s: State<V>, t: Tid)
    requires Inv(s) && Enabled(s, Action<V>.Link(t))
    ensures Inv(Step(s, Action<V>.Link(t), AsDocumented))
  {
    var s' := Step(s, Action<V>.Link(t), AsDocumented);
    var k := LinkPlace(s, t);
    LinkChain(s, t);
    forall i | 0 <= i < |s'.queue| ensures LinkOrPending(s', i) {
      assert LinkOrPending(s, i);
      if i != k {
        if u :| u in s.appends && s.appends[u] == Swapped(At(s, i), s.queue[i]) {
          assert u in s'.appends && s'.appends[u] == Swapped(At(s', i), s'.queue[i]);
        }
      }
    }
    forall u | u in s'.appends ensures AppendOk(s', s'.appends[u]) {
      LinkAppendOk(s, s', t, u, k);
    }
  }

  lemma LinkAppendOk<V>(s: State<V>, s': State<V>, t: Tid, u: Tid, k: nat)
    requires Chain(s) && Chain(s') && k < |s.queue| && t in s.appends && u in s.appends
    requires AppendOk(s, s.appends[u]) && s.appends[u].elem != s.appends[t].elem
    requires s.appends[t] == Swapped(At(s, k), s.queue[k])
    requires s' == SetNext(s, At(s, k), Some(s.queue[k])).(appends := s.appends - {t})
    ensures AppendOk(s', s.appends[u])
  {
    var a := s.appends[u];
    if a.Swapped? {
      var i: nat :| i < |s.queue| && s.queue[i] == a.elem && At(s, i) == a.prev && s.heap[a.prev].next == None;
      AtDistinct(s, i, k);
      assert s'.queue[i] == a.elem && At(s', i) == a.prev;
    }
  }

  /** The dequeuer has only moved on: no memory was written and no element left the list. */
  lemma MoveInv<V>(s: State<V>, pc: Dequeue<V>)
    requires Inv(s) && PcOk(s.(pc := pc)) && Handing(pc) == Handing(s.pc)
    requires InHand(pc) == InHand(s.pc) && (InHand(pc) ==> pc.elem == s.pc.elem)
    ensures Inv(s.(pc := pc))
  {
    var s' := s.(pc := pc);
    forall i | 0 <= i < |s.queue| ensures LinkOrPending(s', i) {
      assert LinkOrPending(s, i);
    }
    forall t | t in s.appends ensures AppendOk(s', s.appends[t]) {
      AppendFrame(s, s', s.appends[t]);
    }
  }

  /** The first element leaves the chain: the head takes over its successor. */
  lemma DropInv<V>(s: State<V>, pc: Dequeue<V>)
    requires Inv(s) && |s.queue| >= 2 && s.heap[s.queue[0]].next == Some(s.queue[1])
    requires Handing(s.pc) || s.heap[s.head].next == Some(s.queue[0])
    requires !InHand(s.pc) && (pc == Unlinked(s.queue[0]) || pc == Taken(s.queue[0]))
    ensures Inv(Dropped(SetNext(s, s.head, Some(s.queue[1])).(pc := pc)))
  {
    var s' := Dropped(SetNext(s, s.head, Some(s.queue[1])).(pc := pc));
    assert forall i :: 0 <= i < |s'.queue| ==> s'.queue[i] == s.queue[i + 1];
    assert forall i :: 1 <= i <= |s'.queue| ==> At(s', i) == At(s, i + 1);
    assert Chain(s') && PcOk(s');
    forall i | 0 <= i < |s'.queue| ensures LinkOrPending(s', i) {
      if i > 0 {
        assert LinkOrPending(s, i + 1);
        if u :| u in s.appends && s.appends[u] == Swapped(At(s, i + 1), s.queue[i + 1]) {
          assert s'.appends[u] == Swapped(At(s', i), s'.queue[i]);
        }
      }
    }
    forall t | t in s'.appends ensures AppendOk(s', s'.appends[t]) {
      DropAppendOk(s, s', s.appends[t]);
    }
    assert Values(s.heap, s.queue) == [s.heap[s.queue[0]].ptr] + Values(s'.heap, s'.queue);
  }

  lemma DropAppendOk<V>(s: State<V>, s': State<V>, a: Append)
    requires Chain(s) && Chain(s') && AppendOk(s, a) && |s.queue| >= 2
    requires s.heap[s.queue[0]].next == Some(s.queue[1])
    requires Handing(s.pc) || s.heap[s.head].next == Some(s.queue[0])
    requires s'.head == s.head && s'.queue == s.queue[1..] && !Handing(s'.pc)
    requires InHand(s'.pc) ==> s'.pc.elem == s.queue[0]
    requires s'.heap == s.heap[s.head := s.heap[s.head].(next := Some(s.queue[1]))]
    ensures AppendOk(s', a)
  {
    match a
    case Ready(e) =>
    case Swapped(p, e) =>
      var i: nat :| i < |s.queue| && s.queue[i] == e && At(s, i) == p && s.heap[p].next == None;
      assert i >= 2;
      assert s'.queue[i - 1] == e && At(s', i - 1) == p;
  }

  /** Off the list, the element is terminated. */
  lemma UnlinkedInv<V>(s: State<V>)
    requires Inv(s) && s.pc.Unlinked?
    ensures Inv(DeqStep(s, AsDocumented))
  {
    var s' := DeqStep(s, AsDocumented);
    forall i | 0 <= i < |s.queue| ensures LinkOrPending(s', i) {
      assert LinkOrPending(s, i);
      assert At(s, i) != s.pc.elem;
    }
    forall t | t in s.appends ensures AppendOk(s', s.appends[t]) {
      AppendFrame(s, s', s.appends[t]);
    }
    assert Values(s'.heap, s'.queue) == Values(s.heap, s.queue);
  }

  /** The only element known is cut off the head. */
  lemma AloneInv<V>(s: State<V>)
    requires Inv(s) && s.pc.Alone?
    ensures Inv(DeqStep(s, AsDocumented))
  {
    var s' := DeqStep(s, AsDocumented);
    assert Chain(s') && PcOk(s');
    forall i | 0 <= i < |s.queue| ensures LinkOrPending(s', i) {
      assert LinkOrPending(s, i);
      assert i > 0 ==> At(s, i) != s.head;
    }
    forall t | t in s.appends ensures AppendOk(s', s.appends[t]) {
      var a := s.appends[t];
      assert AppendOk(s, a);
      if a.Swapped? {
        var i: nat :| i < |s.queue| && s.queue[i] == a.elem && At(s, i) == a.prev && s.heap[a.prev].next == None;
        assert s'.queue[i] == a.elem && At(s', i) == a.prev;
      }
    }
    assert Values(s'.heap, s'.queue) == Values(s.heap, s.queue);
  }

  /** The swap succeeds exactly when nothing was appended behind the element. */
  lemma DetachedInv<V>(s: State<V>)
    requires Inv(s) && s.pc.Detached?
    ensures Inv(DeqStep(s, AsDocumented))
    ensures DeqStep(s, AsDocumented).pc.Taken? <==> |s.queue| == 1
  {
    var e := s.pc.elem;
    if s.tail == e {
      assert forall i :: 0 <= i < |s.queue| ==> At(s, i) != At(s, |s.queue|);
      assert At(s, 1) == e;
      var s' := DeqStep(s, AsDocumented);
      assert s.queue == [e] && s'.queue == [];
      forall t | t in s.appends ensures AppendOk(s', s.appends[t]) {
        assert AppendOk(s, s.appends[t]);
      }
      assert Values(s.heap, s.queue) == [s.heap[e].ptr];
    } else {
      assert |s.queue| >= 2;
      MoveInv(s, Waiting(e));
    }
  }

  /** The element that is freed is reachable for nobody. */
  lemma FreeingInv<V>(s: State<V>)
    requires Inv(s) && s.pc.Freeing?
    ensures Inv(DeqStep(s, AsDocumented))
  {
    var s' := DeqStep(s, AsDocumented);
    assert Chain(s');
    forall i | 0 <= i < |s.queue| ensures LinkOrPending(s', i) {
      assert LinkOrPending(s, i);
      assert At(s, i) != s.pc.elem;
    }
    forall t | t in s.appends ensures AppendOk(s', s.appends[t]) {
      var a := s.appends[t];
      assert AppendOk(s, a);
      if a.Swapped? {
        var i: nat :| i < |s.queue| && s.queue[i] == a.elem && At(s, i) == a.prev && s.heap[a.prev].next == None;
        assert s'.queue[i] == a.elem && At(s', i) == a.prev;
      }
    }
    assert Values(s'.heap, s'.queue) == Values(s.heap, s.queue);
  }

  /** The successor that the element points to is the second one of the queue. */
  lemma Successor<V>(s: State<V>)
    requires Inv(s) && s.queue != [] && s.heap[s.queue[0]].next.Some?
    ensures |s.queue| >= 2 && s.heap[s.queue[0]].next == Some(s.queue[1])
  {
    assert At(s, 1) == s.queue[0];
    assert s.heap[At(s, |s.queue|)].next == None;
    assert LinkOrPending(s, 1);
  }

  lemma NonEmptyInv<V>(s: State<V>)
    requires Inv(s) && s.pc.NonEmpty?
    ensures Inv(DeqStep(s, AsDocumented))
  {
    assert LinkOrPending(s, 0);
    if s.heap[s.head].next.None? { MoveInv(s, Idle); } else { MoveInv(s, HasFirst); }
  }

  lemma TakeOffInv<V>(s: State<V>)
    requires Inv(s) && (s.pc.GotNext? || s.pc.GotLate?)
    ensures Inv(DeqStep(s, AsDocumented))
  {
    Successor(s);
    DropInv(s, if s.pc.GotNext? then Unlinked(s.pc.elem) else Taken(s.pc.elem));
  }

  lemma DeqInv<V>(s: State<V>)
    requires Inv(s)
    ensures Inv(DeqStep(s, AsDocumented))
  {
    match s.pc
    case Idle => if s.head != s.tail { MoveInv(s, NonEmpty); }
    case NonEmpty => NonEmptyInv(s);
    case HasFirst => MoveInv(s, GotElem(s.heap[s.head].next.value));
    case GotElem(e) => MoveInv(s, if s.heap[e].next.Some? then HasNext(e) else Alone(e));
    case HasNext(e) => MoveInv(s, GotNext(e, s.heap[e].next));
    case GotNext(e, n) => TakeOffInv(s);
    case Unlinked(e) => UnlinkedInv(s);
    case Alone(e) => AloneInv(s);
    case Detached(e) => DetachedInv(s);
    case Waiting(e) => if s.heap[e].next.Some? { MoveInv(s, Appeared(e)); }
    case Appeared(e) => MoveInv(s, GotLate(e, s.heap[e].next));
    case GotLate(e, n) => TakeOffInv(s);
    case Taken(e) => MoveInv(s, Freeing(e, s.heap[e].ptr));
    case Freeing(e, v) => FreeingInv(s);
  }

  lemma StepInv<V>(s: State<V>, a: Action<V>)
    requires Inv(s) && Enabled(s, a)
    ensures Inv(Step(s, a, AsDocumented))
  {
    match a
    case Alloc(t, p, v) => AllocInv(s, t, p, v);
    case Swap(t) => SwapInv(s, t);
    case Link(t) => LinkInv(s, t);
    case Deq => DeqInv(s);
  }

  // ---------- Over whole runs ----------

  lemma {:induction false} RunInv<V>(s: State<V>, acts: seq<Action<V>>)
    requires Inv(s) && Possible(s, acts, AsDocumented)
    ensures Inv(Run(s, acts, AsDocumented))
    decreases |acts|
  {
    if acts != [] {
      StepInv(s, acts[0]);
      RunInv(Step(s, acts[0], AsDocumented), acts[1..]);
    }
  }

  /** Whatever the interleaving: the values returned, then the one in the dequeuer's hand, then those
      still queued are exactly the appended values in the order of the tail swaps; and each queued
      element is linked from the one before it, or its link is about to be written. */
  lemma FirstInFirstOut<V>(head: Ptr, blank: V, acts: seq<Action<V>>)
    requires Possible(Created(head, blank), acts, AsDocumented)
    ensures var s := Run(Created(head, blank), acts, AsDocumented);
            Chain(s) && PcOk(s) && s.appended == s.returned + Held(s) + Values(s.heap, s.queue) &&
            forall i :: 0 <= i < |s.queue| ==> LinkOrPending(s, i)
  {
    CreatedInv(head, blank);
    RunInv(Created(head, blank), acts);
  }

  /** Whatever the interleaving: no access goes through a freed element. In particular the
      predecessor whose link an append writes is still there, and it is the predecessor for nobody
      else. */
  lemma NoUseAfterFree<V>(head: Ptr, blank: V, acts: seq<Action<V>>)
    requires Possible(Created(head, blank), acts, AsDocumented)
    ensures var s := Run(Created(head, blank), acts, AsDocumented);
            !s.fault &&
            (forall t :: t in s.appends && s.appends[t].Swapped? ==> s.appends[t].prev in s.heap) &&
            (forall t, u :: t in s.appends && u in s.appends && t != u ==>
               s.appends[t].Swapped? && s.appends[u].Swapped? ==> s.appends[t].prev != s.appends[u].prev)
  {
    CreatedInv(head, blank);
    RunInv(Created(head, blank), acts);
    var s := Run(Created(head, blank), acts, AsDocumented);
    forall t | t in s.appends && s.appends[t].Swapped? ensures s.appends[t].prev in s.heap {
      var k := LinkPlace(s, t);
    }
    forall t, u | t in s.appends && u in s.appends && t != u && s.appends[t].Swapped? && s.appends[u].Swapped?
      ensures s.appends[t].prev != s.appends[u].prev
    {
      var i := LinkPlace(s, t);
      var j := LinkPlace(s, u);
      assert i != j;
    }
  }

  // ---------- Walking the list ----------

  /** Following `next` from `p` visits exactly the elements `q`. */
  predicate Walks<V>(heap: map<Ptr, Elem<V>>, p: Ptr, q: seq<Ptr>)
    decreases |q|
  {
    p in heap &&
    if q == [] then heap[p].next == None else heap[p].next == Some(q[0]) && Walks(heap, q[0], q[1..])
  }

  lemma {:induction false} WalkFrom<V>(s: State<V>, i: nat)
    requires Chain(s) && i <= |s.queue|
    requires forall j :: i <= j < |s.queue| ==> s.heap[At(s, j)].next == Some(s.queue[j])
    ensures Walks(s.heap, At(s, i), s.queue[i..])
    decreases |s.queue| - i
  {
    if i < |s.queue| {
      WalkFrom(s, i + 1);
      assert s.queue[i..][1..] == s.queue[i + 1..];
    }
  }

  /** No append stands between its swap and its link, and no dequeue is under way. */
  predicate Quiet<V>(s: State<V>) {
    s.pc.Idle? && forall t :: t in s.appends ==> s.appends[t].Ready?
  }

  lemma QuietState<V>(s: State<V>)
    requires Inv(s) && Quiet(s)
    ensures Walks(s.heap, s.head, s.queue) && s.appended == s.returned + Values(s.heap, s.queue)
  {
    forall j | 0 <= j < |s.queue| ensures s.heap[At(s, j)].next == Some(s.queue[j]) {
      assert LinkOrPending(s, j);
    }
    WalkFrom(s, 0);
    assert s.queue[0..] == s.queue;
    assert s.returned + [] == s.returned;
  }

  /** In every quiet state of a run, `first` and `next` visit every appended value that was not
      returned, in order. */
  lemma QuietWalk<V>(head: Ptr, blank: V, acts: seq<Action<V>>)
    requires Possible(Created(head, blank), acts, AsDocumented)
    ensures var s := Run(Created(head, blank), acts, AsDocumented);
            Quiet(s) ==>
              Chain(s) && Walks(s.heap, s.head, s.queue) && s.appended == s.returned + Values(s.heap, s.queue)
  {
    CreatedInv(head, blank);
    RunInv(Created(head, blank), acts);
    var s := Run(Created(head, blank), acts, AsDocumented);
    if Quiet(s) {
      QuietState(s);
    }
  }
}

// The lock-free LIFO of rtatomic.h (rt_ll_slist_enqueue, rt_ll_slist_dequeue) as a
// transition system: any number of threads, one shared load, store or compare-exchange
// per step, in every interleaving.
module LockFreeList {
  import opened Sequences

  type Tid = nat

  // A pointer; 0 is the null pointer.
  type Ptr = nat

  // Where a thread stands inside one of the two retry loops. `exp` is the C variable of
  // that name: the value of the list head this thread observed last.
  datatype Pc =
    | Idle
    | EnqLoad(n: Ptr)              // before exp = load(&l->next)
    | EnqLink(n: Ptr, exp: Ptr)    // before n->next = exp
    | EnqCas(n: Ptr, exp: Ptr)     // before the compare-exchange of the enqueue
    | DeqLoad                      // before exp = load(&l->next)
    | DeqRead(exp: Ptr)            // head is not null; before load(&head->next)
    | DeqCas(exp: Ptr, des: Ptr)   // before the compare-exchange of the dequeue

  // `head` is l->next. A node without an entry in `next` still holds null; a thread
  // without an entry in `pc` is idle.
  datatype State = State(head: Ptr, next: map<Ptr, Ptr>, pc: map<Tid, Pc>)

  datatype Action = CallEnqueue(t: Tid, n: Ptr) | CallDequeue(t: Tid) | Step(t: Tid)

  // What a step does to the abstract list. Retry is a failed compare-exchange after which
  // the loop goes round again; SawEmpty is the step that makes a dequeue return null.
  datatype Event = Tau | Retry | Pushed(n: Ptr) | Popped(n: Ptr) | SawEmpty

  datatype Outcome = Outcome(s: State, ev: Event)

  const INIT := State(0, map[], map[])

  function At(s: State, t: Tid): Pc {
    if t in s.pc then s.pc[t] else Idle
  }

  function NextOf(s: State, n: Ptr): Ptr {
    if n in s.next then s.next[n] else 0
  }

  function Goto(s: State, t: Tid, pc: Pc): State {
    s.(pc := s.pc[t := pc])
  }

  predicate Enabled(s: State, a: Action) {
    match a
    case CallEnqueue(t, n) => At(s, t) == Idle && n != 0
    case CallDequeue(t) => At(s, t) == Idle
    case Step(t) => At(s, t) != Idle
  }

  // `head = exp; while (head && ...)`: the dequeue loop after exp has been observed.
  function Observe(s: State, t: Tid, again: Event): Outcome {
    if s.head == 0 then Outcome(Goto(s, t, Idle), SawEmpty)
    else Outcome(Goto(s, t, DeqRead(s.head)), again)
  }

  function StepOf(s: State, t: Tid): Outcome
    requires At(s, t) != Idle
  {
    match At(s, t)
    case EnqLoad(n) => Outcome(Goto(s, t, EnqLink(n, s.head)), Tau)
    case EnqLink(n, exp) => Outcome(Goto(s.(next := s.next[n := exp]), t, EnqCas(n, exp)), Tau)
    case EnqCas(n, exp) =>
      if s.head == exp then Outcome(Goto(s.(head := n), t, Idle), Pushed(n))
      else Outcome(Goto(s, t, EnqLink(n, s.head)), Retry)
    case DeqLoad => Observe(s, t, Tau)
    case DeqRead(exp) => Outcome(Goto(s, t, DeqCas(exp, NextOf(s, exp))), Tau)
    case DeqCas(exp, des) =>
      if s.head == exp then Outcome(Goto(s.(head := des), t, Idle), Popped(exp))
      else Observe(s, t, Retry)
  }

  function Next(s: State, a: Action): Outcome
    requires Enabled(s, a)
  {
    match a
    case CallEnqueue(t, n) => Outcome(Goto(s, t, EnqLoad(n)), Tau)
    case CallDequeue(t) => Outcome(Goto(s, t, DeqLoad), Tau)
    case Step(t) => StepOf(s, t)
  }

  // ----- The specification: an atomic LIFO -------------------------------------------

  predicate LifoAccepts(q: seq<Ptr>, ev: Event) {
    match ev
    case Popped(n) => q != [] && q[0] == n
    case SawEmpty => q == []
    case _ => true
  }

  function LifoApply(q: seq<Ptr>, ev: Event): seq<Ptr> {
    match ev
    case Pushed(n) => [n] + q
    case Popped(_) => if q == [] then q else q[1..]
    case _ => q
  }

  predicate Accepts(q: seq<Ptr>, evs: seq<Event>)
    decreases |evs|
  {
    evs == [] || (LifoAccepts(q, evs[0]) && Accepts(LifoApply(q, evs[0]), evs[1..]))
  }

  function Apply(q: seq<Ptr>, evs: seq<Event>): seq<Ptr>
    decreases |evs|
  {
    if evs == [] then q else Apply(LifoApply(q, evs[0]), evs[1..])
  }

  // ----- Runs ----------------------------------------------------------------------

  predicate IsRun(s: State, acts: seq<Action>)
    decreases |acts|
  {
    acts == [] || (Enabled(s, acts[0]) && IsRun(Next(s, acts[0]).s, acts[1..]))
  }

  function Final(s: State, acts: seq<Action>): State
    requires IsRun(s, acts)
    decreases |acts|
  {
    if acts == [] then s else Final(Next(s, acts[0]).s, acts[1..])
  }

  function Events(s: State, acts: seq<Action>): seq<Event>
    requires IsRun(s, acts)
    decreases |acts|
  {
    if acts == [] then []
    else [Next(s, acts[0]).ev] + Events(Next(s, acts[0]).s, acts[1..])
  }

  // ----- What callers owe ------------------------------------------------------------

  predicate Enqueues(pc: Pc) {
    pc.EnqLoad? || pc.EnqLink? || pc.EnqCas?
  }

  predicate Holds(pc: Pc) {
    pc.DeqRead? || pc.DeqCas?
  }

  // The node a thread is working on; 0 if there is none.
  function NodeOf(pc: Pc): Ptr {
    if Enqueues(pc) then pc.n else if Holds(pc) then pc.exp else 0
  }

  // The caller owns n: it is not in the list and nobody is enqueuing it.
  ghost predicate Free(s: State, q: seq<Ptr>, n: Ptr) {
    n !in q && forall t :: Enqueues(At(s, t)) ==> NodeOf(At(s, t)) != n
  }

  // Some dequeuer has observed n as the head and has not finished with it.
  ghost predicate Held(s: State, n: Ptr) {
    exists t :: Holds(At(s, t)) && NodeOf(At(s, t)) == n
  }

  // Every enqueue is of a node its caller owns; q is the abstract list along the run.
  ghost predicate Owned(s: State, q: seq<Ptr>, acts: seq<Action>)
    requires IsRun(s, acts)
    decreases |acts|
  {
    acts == [] ||
    (var o := Next(s, acts[0]);
     && (acts[0].CallEnqueue? ==> Free(s, q, acts[0].n))
     && Owned(o.s, LifoApply(q, o.ev), acts[1..]))
  }

  // Moreover no node is re-enqueued while a dequeuer still holds it.
  ghost predicate HazardFree(s: State, q: seq<Ptr>, acts: seq<Action>)
    requires IsRun(s, acts)
    decreases |acts|
  {
    acts == [] ||
    (var o := Next(s, acts[0]);
     && (acts[0].CallEnqueue? ==> Free(s, q, acts[0].n) && !Held(s, acts[0].n))
     && HazardFree(o.s, LifoApply(q, o.ev), acts[1..]))
  }

  // ----- The invariant ---------------------------------------------------------------

  // Following `next` from p visits exactly the nodes of q and then null.
  predicate Chain(s: State, p: Ptr, q: seq<Ptr>)
    decreases |q|
  {
    if q == [] then p == 0 else p == q[0] && p != 0 && Chain(s, NextOf(s, p), q[1..])
  }

  predicate NoDup(q: seq<Ptr>) {
    forall i, j :: 0 <= i < j < |q| ==> q[i] != q[j]
  }

  predicate ThreadOk(s: State, q: seq<Ptr>, pc: Pc) {
    match pc
    case EnqLoad(n) => n != 0 && n !in q
    case EnqLink(n, _) => n != 0 && n !in q
    case EnqCas(n, exp) => n != 0 && n !in q && NextOf(s, n) == exp
    case DeqRead(exp) => exp != 0
    case DeqCas(exp, des) => exp != 0 && NextOf(s, exp) == des
    case _ => true
  }

  // Nobody else enqueues a node that this thread enqueues or has observed as the head.
  predicate Apart(mine: Pc, other: Pc) {
    NodeOf(mine) != 0 && Enqueues(other) ==> NodeOf(mine) != NodeOf(other)
  }

  ghost predicate Inv(s: State, q: seq<Ptr>) {
    && Chain(s, s.head, q)
    && NoDup(q)
    && (forall t :: ThreadOk(s, q, At(s, t)))
    && (forall t, u :: t != u ==> Apart(At(s, t), At(s, u)))
  }

  // The heap determines the abstract list.
  lemma {:induction false} ChainUnique(s: State, p: Ptr, q: seq<Ptr>, r: seq<Ptr>)
    requires Chain(s, p, q) && Chain(s, p, r)
    ensures q == r
    decreases |q|
  {
    if q != [] && r != [] {
      ChainUnique(s, NextOf(s, p), q[1..], r[1..]);
      assert q == [q[0]] + q[1..] && r == [r[0]] + r[1..];
    }
  }

  // A store to a node outside the list leaves the chain alone.
  lemma {:induction false} ChainFrame(s: State, s': State, p: Ptr, q: seq<Ptr>)
    requires Chain(s, p, q)
    requires forall n :: n in q ==> NextOf(s', n) == NextOf(s, n)
    ensures Chain(s', p, q)
    decreases |q|
  {
    if q != [] { ChainFrame(s, s', NextOf(s, p), q[1..]); }
  }

  lemma EventKeepsChain(s: State, q: seq<Ptr>, a: Action)
    requires Inv(s, q) && Enabled(s, a)
    ensures var o := Next(s, a);
      LifoAccepts(q, o.ev) && Chain(o.s, o.s.head, LifoApply(q, o.ev)) && NoDup(LifoApply(q, o.ev))
  {
    var o := Next(s, a);
    assert ThreadOk(s, q, At(s, a.t));
    assert forall n :: n in q ==> NextOf(o.s, n) == NextOf(s, n);
    ChainFrame(s, o.s, s.head, q);
    if o.ev.Pushed? {
      var r := LifoApply(q, o.ev);
      assert r[1..] == q;
    }
  }

  lemma StepKeepsThreads(s: State, q: seq<Ptr>, a: Action)
    requires Inv(s, q) && Enabled(s, a)
    requires a.CallEnqueue? ==> Free(s, q, a.n)
    ensures var o := Next(s, a); forall t :: ThreadOk(o.s, LifoApply(q, o.ev), At(o.s, t))
  {
    var o := Next(s, a);
    var r := LifoApply(q, o.ev);
    assert ThreadOk(s, q, At(s, a.t));
    assert forall n :: n in r ==> n in q || o.ev == Pushed(n);
    forall t ensures ThreadOk(o.s, r, At(o.s, t)) {
      assert ThreadOk(s, q, At(s, t));
      assert t != a.t ==> Apart(At(s, t), At(s, a.t));
    }
  }

  lemma StepKeepsApart(s: State, q: seq<Ptr>, a: Action)
    requires Inv(s, q) && Enabled(s, a)
    requires a.CallEnqueue? ==> Free(s, q, a.n) && !Held(s, a.n)
    ensures forall t, u :: t != u ==> Apart(At(Next(s, a).s, t), At(Next(s, a).s, u))
  {
    var o := Next(s, a);
    assert s.head != 0 ==> q != [] && q[0] == s.head;
    forall t, u | t != u ensures Apart(At(o.s, t), At(o.s, u)) {
      assert Apart(At(s, t), At(s, u));
      assert ThreadOk(s, q, At(s, u));
    }
  }

  // One step of any thread, from any state of the invariant, is one step of the atomic
  // LIFO on the list the heap represents.
  lemma StepRefines(s: State, q: seq<Ptr>, a: Action)
    requires Inv(s, q) && Enabled(s, a)
    requires a.CallEnqueue? ==> Free(s, q, a.n) && !Held(s, a.n)
    ensures LifoAccepts(q, Next(s, a).ev)
    ensures Inv(Next(s, a).s, LifoApply(q, Next(s, a).ev))
  {
    EventKeepsChain(s, q, a);
    StepKeepsThreads(s, q, a);
    StepKeepsApart(s, q, a);
  }

  // ----- Main theorem: refinement over whole runs --------------------------------------

  lemma {:induction false} RunRefines(s: State, q: seq<Ptr>, acts: seq<Action>)
    requires Inv(s, q) && IsRun(s, acts) && HazardFree(s, q, acts)
    ensures Accepts(q, Events(s, acts))
    ensures Inv(Final(s, acts), Apply(q, Events(s, acts)))
    decreases |acts|
  {
    if acts != [] {
      var o := Next(s, acts[0]);
      StepRefines(s, q, acts[0]);
      RunRefines(o.s, LifoApply(q, o.ev), acts[1..]);
      assert Events(s, acts)[1..] == Events(o.s, acts[1..]);
    }
  }

  lemma InitInv()
    ensures Inv(INIT, [])
  {
    assert forall t :: At(INIT, t) == Idle;
  }

  // ----- Conservation ------------------------------------------------------------------

  function PushOf(ev: Event): multiset<Ptr> {
    if ev.Pushed? then multiset{ev.n} else multiset{}
  }

  function PopOf(ev: Event): multiset<Ptr> {
    if ev.Popped? then multiset{ev.n} else multiset{}
  }

  function PushedNodes(evs: seq<Event>): multiset<Ptr> {
    if evs == [] then multiset{} else PushOf(evs[0]) + PushedNodes(evs[1..])
  }

  function PoppedNodes(evs: seq<Event>): multiset<Ptr> {
    if evs == [] then multiset{} else PopOf(evs[0]) + PoppedNodes(evs[1..])
  }

  lemma EventConserves(q: seq<Ptr>, ev: Event)
    requires LifoAccepts(q, ev)
    ensures multiset(q) + PushOf(ev) == PopOf(ev) + multiset(LifoApply(q, ev))
  {
    if ev.Popped? { assert q == [q[0]] + q[1..]; }
  }

  // No node is lost or duplicated: start + pushed = popped + what is left.
  lemma {:induction false} Conservation(q: seq<Ptr>, evs: seq<Event>)
    requires Accepts(q, evs)
    ensures multiset(q) + PushedNodes(evs) == PoppedNodes(evs) + multiset(Apply(q, evs))
    decreases |evs|
  {
    if evs != [] {
      var r := LifoApply(q, evs[0]);
      EventConserves(q, evs[0]);
      Conservation(r, evs[1..]);
      var a, b, c, d := PushOf(evs[0]), PushedNodes(evs[1..]), PopOf(evs[0]), PoppedNodes(evs[1..]);
      assert multiset(q) + (a + b) == (multiset(q) + a) + b == (c + multiset(r)) + b
          == c + (multiset(r) + b);
    }
  }

  // ----- Calls and returns ----------------------------------------------------------------

  predicate Dequeues(pc: Pc) {
    pc.DeqLoad? || Holds(pc)
  }

  // A thread leaves an enqueue exactly with the push of its own node, and a dequeue exactly
  // with the pop of the node it has observed or with an empty list; until then it goes on
  // with the same call.
  lemma StepReturns(s: State, a: Action)
    requires Enabled(s, a)
    ensures var o := Next(s, a); var pc, pc' := At(s, a.t), At(o.s, a.t);
      && (forall t :: t != a.t ==> At(o.s, t) == At(s, t))
      && (a.CallEnqueue? ==> pc' == EnqLoad(a.n) && o.ev == Tau)
      && (a.CallDequeue? ==> pc' == DeqLoad && o.ev == Tau)
      && (a.Step? && Enqueues(pc) ==>
            if pc' == Idle then o.ev == Pushed(NodeOf(pc))
            else Enqueues(pc') && NodeOf(pc') == NodeOf(pc) && (o.ev == Tau || o.ev == Retry))
      && (a.Step? && Dequeues(pc) ==>
            if pc' == Idle then o.ev == SawEmpty || (Holds(pc) && o.ev == Popped(NodeOf(pc)))
            else Dequeues(pc') && (o.ev == Tau || o.ev == Retry))
  {
  }

  // The nodes that t's calls enqueue, those it pushes, and the one it is working on.
  function EnqueuesBy(acts: seq<Action>, t: Tid): seq<Ptr> {
    if acts == [] then []
    else (if acts[0].CallEnqueue? && acts[0].t == t then [acts[0].n] else []) + EnqueuesBy(acts[1..], t)
  }

  function PushesBy(s: State, acts: seq<Action>, t: Tid): seq<Ptr>
    requires IsRun(s, acts)
    decreases |acts|
  {
    if acts == [] then []
    else (var ev := Next(s, acts[0]).ev; if ev.Pushed? && acts[0].t == t then [ev.n] else [])
         + PushesBy(Next(s, acts[0]).s, acts[1..], t)
  }

  function InHand(pc: Pc): seq<Ptr> {
    if Enqueues(pc) then [NodeOf(pc)] else []
  }

  // Each thread pushes the nodes of its calls, one by one and in order, up to the one it is
  // still working on.
  lemma {:induction false} EnqueuesReturn(s: State, acts: seq<Action>, t: Tid)
    requires IsRun(s, acts)
    ensures InHand(At(s, t)) + EnqueuesBy(acts, t) == PushesBy(s, acts, t) + InHand(At(Final(s, acts), t))
    decreases |acts|
  {
    if acts != [] {
      var a, o := acts[0], Next(s, acts[0]);
      var call := if a.CallEnqueue? && a.t == t then [a.n] else [];
      var push := if o.ev.Pushed? && a.t == t then [o.ev.n] else [];
      StepReturns(s, a);
      EnqueuesReturn(o.s, acts[1..], t);
      assert InHand(At(s, t)) + call == push + InHand(At(o.s, t));
      Chained(InHand(At(s, t)), call, push, InHand(At(o.s, t)), EnqueuesBy(acts[1..], t),
              PushesBy(o.s, acts[1..], t), InHand(At(Final(s, acts), t)));
    }
  }

  function DequeuesBy(acts: seq<Action>, t: Tid): nat {
    if acts == [] then 0
    else (if acts[0].CallDequeue? && acts[0].t == t then 1 else 0) + DequeuesBy(acts[1..], t)
  }

  // Pops and null results of t.
  function ResultsBy(s: State, acts: seq<Action>, t: Tid): nat
    requires IsRun(s, acts)
    decreases |acts|
  {
    if acts == [] then 0
    else (var ev := Next(s, acts[0]).ev; if (ev.Popped? || ev.SawEmpty?) && acts[0].t == t then 1 else 0)
         + ResultsBy(Next(s, acts[0]).s, acts[1..], t)
  }

  lemma {:induction false} DequeuesReturn(s: State, acts: seq<Action>, t: Tid)
    requires IsRun(s, acts)
    ensures (if Dequeues(At(s, t)) then 1 else 0) + DequeuesBy(acts, t) ==
      ResultsBy(s, acts, t) + (if Dequeues(At(Final(s, acts), t)) then 1 else 0)
    decreases |acts|
  {
    if acts != [] {
      StepReturns(s, acts[0]);
      DequeuesReturn(Next(s, acts[0]).s, acts[1..], t);
    }
  }

  // Every call of the run has returned with its effect or is still at work.
  ghost predicate CallsReturn(acts: seq<Action>)
    requires IsRun(INIT, acts)
  {
    forall t ::
      && EnqueuesBy(acts, t) == PushesBy(INIT, acts, t) + InHand(At(Final(INIT, acts), t))
      && DequeuesBy(acts, t) == ResultsBy(INIT, acts, t) + (if Dequeues(At(Final(INIT, acts), t)) then 1 else 0)
  }

  lemma RunReturns(acts: seq<Action>)
    requires IsRun(INIT, acts)
    ensures CallsReturn(acts)
  {
    forall t
      ensures EnqueuesBy(acts, t) == PushesBy(INIT, acts, t) + InHand(At(Final(INIT, acts), t))
      ensures DequeuesBy(acts, t) ==
        ResultsBy(INIT, acts, t) + (if Dequeues(At(Final(INIT, acts), t)) then 1 else 0)
    {
      EnqueuesReturn(INIT, acts, t);
      DequeuesReturn(INIT, acts, t);
      assert InHand(At(INIT, t)) + EnqueuesBy(acts, t) == EnqueuesBy(acts, t);
    }
  }

  predicate IsEnqueuing(pc: Pc, n: Ptr) {
    Enqueues(pc) && NodeOf(pc) == n
  }

  // How many of the threads below k are enqueuing n.
  function Enqueuing(s: State, k: nat, n: Ptr): nat {
    if k == 0 then 0 else Enqueuing(s, k - 1, n) + (if IsEnqueuing(At(s, k - 1), n) then 1 else 0)
  }

  lemma {:induction false} EnqueuingStep(s: State, s': State, t: Tid, k: nat, n: Ptr)
    requires forall u: Tid :: u != t ==> At(s', u) == At(s, u)
    ensures Enqueuing(s', k, n) - Enqueuing(s, k, n) ==
      if t >= k then 0
      else (if IsEnqueuing(At(s', t), n) then 1 else 0) - (if IsEnqueuing(At(s, t), n) then 1 else 0)
  {
    if k > 0 { EnqueuingStep(s, s', t, k - 1, n); }
  }

  // One step: what was being enqueued or is called for is pushed or being enqueued afterwards.
  lemma StepConserves(s: State, a: Action, k: nat, n: Ptr)
    requires Enabled(s, a) && a.t < k
    ensures var o := Next(s, a);
      Enqueuing(s, k, n) + (if a.CallEnqueue? && a.n == n then 1 else 0) ==
      (if o.ev == Pushed(n) then 1 else 0) + Enqueuing(o.s, k, n)
  {
    StepReturns(s, a);
    EnqueuingStep(s, Next(s, a).s, a.t, k, n);
  }

  // How often n is passed to enqueue, and how often it is pushed.
  lemma CallsSplit(acts: seq<Action>, n: Ptr)
    requires acts != []
    ensures multiset(EnqueueCalls(acts))[n] ==
      (if acts[0].CallEnqueue? && acts[0].n == n then 1 else 0) + multiset(EnqueueCalls(acts[1..]))[n]
  {
  }

  lemma PushesSplit(evs: seq<Event>, n: Ptr)
    requires evs != []
    ensures PushedNodes(evs)[n] == (if evs[0] == Pushed(n) then 1 else 0) + PushedNodes(evs[1..])[n]
  {
  }

  // No call is lost: the nodes of all enqueue calls are those pushed and those still being
  // enqueued.
  lemma {:induction false} EnqueuesConserved(s: State, acts: seq<Action>, k: nat, n: Ptr)
    requires IsRun(s, acts) && forall i :: 0 <= i < |acts| ==> acts[i].t < k
    ensures Enqueuing(s, k, n) + multiset(EnqueueCalls(acts))[n] ==
      PushedNodes(Events(s, acts))[n] + Enqueuing(Final(s, acts), k, n)
    decreases |acts|
  {
    if acts != [] {
      var o := Next(s, acts[0]);
      StepConserves(s, acts[0], k, n);
      EnqueuesConserved(o.s, acts[1..], k, n);
      assert Events(s, acts)[1..] == Events(o.s, acts[1..]);
      CallsSplit(acts, n);
      PushesSplit(Events(s, acts), n);
    }
  }

  lemma {:induction false} NobodyEnqueues(k: nat, n: Ptr)
    ensures Enqueuing(INIT, k, n) == 0
  {
    if k > 0 { NobodyEnqueues(k - 1, n); }
  }

  lemma AllEnqueuesReturn(acts: seq<Action>, k: nat, n: Ptr)
    requires IsRun(INIT, acts) && forall i :: 0 <= i < |acts| ==> acts[i].t < k
    ensures multiset(EnqueueCalls(acts))[n] ==
      PushedNodes(Events(INIT, acts))[n] + Enqueuing(Final(INIT, acts), k, n)
  {
    NobodyEnqueues(k, n);
    EnqueuesConserved(INIT, acts, k, n);
  }

  // ----- Discipline 1: each node is enqueued at most once -------------------------------

  function EnqueueCalls(acts: seq<Action>): seq<Ptr> {
    if acts == [] then []
    else (if acts[0].CallEnqueue? then [acts[0].n] else []) + EnqueueCalls(acts[1..])
  }

  // All nodes of the list and of the threads come from `used`.
  ghost predicate Within(s: State, q: seq<Ptr>, used: set<Ptr>) {
    && (forall n :: n in q ==> n in used)
    && (forall t :: NodeOf(At(s, t)) != 0 ==> NodeOf(At(s, t)) in used)
  }

  lemma StepWithin(s: State, q: seq<Ptr>, a: Action, used: set<Ptr>)
    requires Inv(s, q) && Enabled(s, a) && Within(s, q, used)
    ensures var o := Next(s, a);
      Within(o.s, LifoApply(q, o.ev), if a.CallEnqueue? then used + {a.n} else used)
  {
    var o := Next(s, a);
    var used' := if a.CallEnqueue? then used + {a.n} else used;
    forall t | NodeOf(At(o.s, t)) != 0 ensures NodeOf(At(o.s, t)) in used' {
      assert NodeOf(At(s, t)) != 0 ==> NodeOf(At(s, t)) in used;
      assert Chain(s, s.head, q);
    }
    assert ThreadOk(s, q, At(s, a.t));
  }

  lemma {:induction false} OnceImpliesHazardFree(s: State, q: seq<Ptr>, acts: seq<Action>, used: set<Ptr>)
    requires Inv(s, q) && IsRun(s, acts) && Within(s, q, used)
    requires NoDup(EnqueueCalls(acts)) && forall n :: n in EnqueueCalls(acts) ==> n !in used
    ensures HazardFree(s, q, acts)
    decreases |acts|
  {
    if acts != [] {
      var a, o, calls := acts[0], Next(s, acts[0]), EnqueueCalls(acts);
      var k := if a.CallEnqueue? then 1 else 0;
      assert calls[k..] == EnqueueCalls(acts[1..]);
      assert forall i :: 0 <= i < |calls| - k ==> calls[i + k] == calls[k..][i];
      if a.CallEnqueue? {
        assert calls[0] == a.n;
        assert forall t :: NodeOf(At(s, t)) != a.n;
      }
      StepRefines(s, q, a);
      StepWithin(s, q, a, used);
      OnceImpliesHazardFree(o.s, LifoApply(q, o.ev), acts[1..],
                            if a.CallEnqueue? then used + {a.n} else used);
    }
  }

  // Every run from the empty list in which no node is enqueued twice is linearizable to
  // an atomic LIFO, and the heap holds exactly its contents at the end.
  lemma OnceOnlyLinearizable(acts: seq<Action>)
    requires IsRun(INIT, acts) && NoDup(EnqueueCalls(acts))
    ensures var evs := Events(INIT, acts); var f := Final(INIT, acts);
      && Accepts([], evs)
      && Chain(f, f.head, Apply([], evs)) && NoDup(Apply([], evs))
      && PushedNodes(evs) == PoppedNodes(evs) + multiset(Apply([], evs))
      && CallsReturn(acts)
  {
    InitInv();
    RunReturns(acts);
    assert forall t :: At(INIT, t) == Idle;
    OnceImpliesHazardFree(INIT, [], acts, {});
    RunRefines(INIT, [], acts);
    Conservation([], Events(INIT, acts));
  }

  // ----- Discipline 2: a single dequeuer, nodes freely reused ----------------------------

  predicate OnlyDequeuer(acts: seq<Action>, d: Tid) {
    forall i :: 0 <= i < |acts| && acts[i].CallDequeue? ==> acts[i].t == d
  }

  // Only d dequeues, and the node it has observed is still in the list.
  ghost predicate Exclusive(s: State, q: seq<Ptr>, d: Tid) {
    forall t :: (At(s, t).DeqLoad? || Holds(At(s, t))) ==>
      t == d && (Holds(At(s, t)) ==> NodeOf(At(s, t)) in q)
  }

  lemma {:induction false} SingleImpliesHazardFree(s: State, q: seq<Ptr>, acts: seq<Action>, d: Tid)
    requires Inv(s, q) && IsRun(s, acts) && Owned(s, q, acts)
    requires OnlyDequeuer(acts, d) && Exclusive(s, q, d)
    ensures HazardFree(s, q, acts)
    decreases |acts|
  {
    if acts != [] {
      var a, o := acts[0], Next(s, acts[0]);
      var r := LifoApply(q, o.ev);
      StepRefines(s, q, a);
      assert acts[0] == a && (a.CallDequeue? ==> a.t == d);
      forall t | At(o.s, t).DeqLoad? || Holds(At(o.s, t))
        ensures t == d && (Holds(At(o.s, t)) ==> NodeOf(At(o.s, t)) in r)
      {
        if t != a.t {
          assert At(o.s, t) == At(s, t);
          assert forall n :: n in q && o.ev != Popped(n) ==> n in r;
        } else {
          assert Chain(s, s.head, q);
        }
      }
      forall i | 0 <= i < |acts[1..]| && acts[1..][i].CallDequeue? ensures acts[1..][i].t == d {
        assert acts[1..][i] == acts[i + 1];
      }
      SingleImpliesHazardFree(o.s, r, acts[1..], d);
    }
  }

  // With one dequeuer, owners may re-enqueue popped nodes at will.
  lemma SingleDequeuerLinearizable(acts: seq<Action>, d: Tid)
    requires IsRun(INIT, acts) && Owned(INIT, [], acts) && OnlyDequeuer(acts, d)
    ensures var evs := Events(INIT, acts); var f := Final(INIT, acts);
      && Accepts([], evs)
      && Chain(f, f.head, Apply([], evs)) && NoDup(Apply([], evs))
      && PushedNodes(evs) == PoppedNodes(evs) + multiset(Apply([], evs))
      && CallsReturn(acts)
  {
    InitInv();
    RunReturns(acts);
    assert forall t :: At(INIT, t) == Idle;
    SingleImpliesHazardFree(INIT, [], acts, d);
    RunRefines(INIT, [], acts);
    Conservation([], Events(INIT, acts));
  }

  // ----- Without a discipline: the exact condition on reuse -------------------------------

  // The run is linearizable from list q and the heap ends up holding the LIFO's contents.
  predicate Sound(s: State, q: seq<Ptr>, acts: seq<Action>)
    requires IsRun(s, acts)
  {
    var evs, f := Events(s, acts), Final(s, acts);
    Accepts(q, evs) && Chain(f, f.head, Apply(q, evs))
  }

  ghost predicate Breaks(s: State, q: seq<Ptr>, acts: seq<Action>) {
    IsRun(s, acts) && HazardFree(s, q, acts) && !Sound(s, q, acts)
  }

  ghost predicate CanBreak(s: State, q: seq<Ptr>) {
    exists acts :: Breaks(s, q, acts)
  }

  lemma BreaksNow(s: State, q: seq<Ptr>)
    requires !Chain(s, s.head, q)
    ensures CanBreak(s, q)
  {
    assert Breaks(s, q, []);
  }

  lemma BreaksAfter(s: State, q: seq<Ptr>, a: Action)
    requires Enabled(s, a)
    requires a.CallEnqueue? ==> Free(s, q, a.n) && !Held(s, a.n)
    requires CanBreak(Next(s, a).s, LifoApply(q, Next(s, a).ev))
    ensures CanBreak(s, q)
  {
    var o := Next(s, a);
    var rest :| Breaks(o.s, LifoApply(q, o.ev), rest);
    var acts := [a] + rest;
    assert acts[0] == a && acts[1..] == rest;
    assert Events(s, acts) == [o.ev] + Events(o.s, rest);
    assert Events(s, acts)[1..] == Events(o.s, rest);
    assert Breaks(s, q, acts);
  }

  lemma {:induction false} Above(ns: set<nat>) returns (b: nat)
    ensures forall n :: n in ns ==> n < b
    decreases |ns|
  {
    if ns == {} {
      b := 0;
    } else {
      var x :| x in ns;
      var c := Above(ns - {x});
      b := if x < c then c else x + 1;
      forall n | n in ns ensures n < b {
        assert n == x || n in ns - {x};
      }
    }
  }

  // A thread that is idle and a node that nobody has ever touched.
  lemma Fresh(s: State, q: seq<Ptr>, u: Tid, avoid: set<Ptr>) returns (v: Tid, m: Ptr)
    ensures v != u && At(s, v) == Idle
    ensures m != 0 && m !in q && m !in avoid && forall t :: NodeOf(At(s, t)) != m
  {
    var nodes := set t | t in s.pc :: NodeOf(s.pc[t]);
    var listed := set n | n in q;
    m := Above({0} + avoid + listed + nodes);
    assert forall n :: n in q ==> n in listed;
    assert forall n :: n in {0} + avoid + listed + nodes ==> n < m;
    v := Above(s.pc.Keys + {u});
    forall t ensures NodeOf(At(s, t)) != m {
      if t in s.pc { assert NodeOf(s.pc[t]) in nodes; }
    }
  }

  // An idle thread v pushes m with nobody else moving.
  function Push(s: State, v: Tid, m: Ptr): State {
    State(m, s.next[m := s.head], s.pc[v := Idle])
  }

  lemma BreaksAfterPush(s: State, q: seq<Ptr>, v: Tid, m: Ptr)
    requires At(s, v) == Idle && m != 0 && m !in q && forall t :: NodeOf(At(s, t)) != m
    requires CanBreak(Push(s, v, m), [m] + q)
    ensures CanBreak(s, q)
  {
    var s1 := Next(s, CallEnqueue(v, m)).s;
    var s2 := StepOf(s1, v).s;
    var s3 := StepOf(s2, v).s;
    var s4 := StepOf(s3, v).s;
    assert s4 == Push(s, v, m);
    BreaksAfter(s3, q, Step(v));
    BreaksAfter(s2, q, Step(v));
    BreaksAfter(s1, q, Step(v));
    BreaksAfter(s, q, CallEnqueue(v, m));
  }

  // The dequeuer t has already read the successor `des` of n: pushing another node and
  // then n again leaves t's compare-exchange comparing equal with a stale successor.
  lemma StaleSuccessorBreaks(s: State, q: seq<Ptr>, t: Tid, u: Tid, n: Ptr, des: Ptr)
    requires At(s, t) == DeqCas(n, des) && At(s, u) == EnqLoad(n)
    ensures CanBreak(s, q)
  {
    var v, m := Fresh(s, q, u, {des, n});
    var s1 := Push(s, v, m);
    var s2 := StepOf(s1, u).s;
    var s3 := StepOf(s2, u).s;
    var s4 := StepOf(s3, u).s;
    var s5 := StepOf(s4, t).s;
    var r := [m] + q;
    assert ([n] + r)[1..] == r;
    BreaksNow(s5, r);
    BreaksAfter(s4, [n] + r, Step(t));
    BreaksAfter(s3, r, Step(u));
    BreaksAfter(s2, r, Step(u));
    BreaksAfter(s1, r, Step(u));
    BreaksAfterPush(s, q, v, m);
  }

  // u, about to link n, loses its compare-exchange to a push of m, retries and wins; t then
  // wins with a successor that was stale all along.
  lemma LateLinkBreaks(s: State, r: seq<Ptr>, t: Tid, u: Tid, n: Ptr, was: Ptr, m: Ptr)
    requires At(s, t) == DeqCas(n, was) && At(s, u) == EnqCas(n, was)
    requires s.head == m && r != [] && r[0] == m && m != was
    ensures CanBreak(s, r)
  {
    var s1 := StepOf(s, u).s;
    var s2 := StepOf(s1, u).s;
    var s3 := StepOf(s2, u).s;
    var s4 := StepOf(s3, t).s;
    assert ([n] + r)[1..] == r;
    BreaksNow(s4, r);
    BreaksAfter(s3, [n] + r, Step(t));
    BreaksAfter(s2, r, Step(u));
    BreaksAfter(s1, r, Step(u));
    BreaksAfter(s, r, Step(u));
  }

  // The dequeuer t has yet to read the successor of n: it can read the one that the
  // enqueuer u stores first and overwrites on its retry.
  lemma EarlySuccessorBreaks(s: State, q: seq<Ptr>, t: Tid, u: Tid, n: Ptr)
    requires At(s, t) == DeqRead(n) && At(s, u) == EnqLoad(n)
    ensures CanBreak(s, q)
  {
    var v, m := Fresh(s, q, u, {s.head, n});
    var s1 := StepOf(s, u).s;
    var s2 := StepOf(s1, u).s;
    var s3 := StepOf(s2, t).s;
    forall x ensures NodeOf(At(s3, x)) != m { assert NodeOf(At(s, x)) != m; }
    LateLinkBreaks(Push(s3, v, m), [m] + q, t, u, n, s.head, m);
    BreaksAfterPush(s3, q, v, m);
    BreaksAfter(s2, q, Step(t));
    BreaksAfter(s1, q, Step(u));
    BreaksAfter(s, q, Step(u));
  }

  // Re-enqueuing a node its caller owns can lead to a corrupted list if and only if some
  // dequeuer still holds that node, whatever happens afterwards being hazard-free.
  lemma ReuseBreaksIffHeld(s: State, q: seq<Ptr>, u: Tid, n: Ptr)
    requires Inv(s, q) && Enabled(s, CallEnqueue(u, n)) && Free(s, q, n)
    ensures CanBreak(Next(s, CallEnqueue(u, n)).s, q) <==> Held(s, n)
  {
    var s1 := Next(s, CallEnqueue(u, n)).s;
    if Held(s, n) {
      var t :| Holds(At(s, t)) && NodeOf(At(s, t)) == n;
      assert At(s1, t) == At(s, t);
      if At(s, t).DeqCas? {
        StaleSuccessorBreaks(s1, q, t, u, n, At(s, t).des);
      } else {
        EarlySuccessorBreaks(s1, q, t, u, n);
      }
    } else {
      StepRefines(s, q, CallEnqueue(u, n));
      forall acts ensures !Breaks(s1, q, acts) {
        if IsRun(s1, acts) && HazardFree(s1, q, acts) { RunRefines(s1, q, acts); }
      }
    }
  }

  // ----- Progress ------------------------------------------------------------------------

  predicate FailedCas(s: State, a: Action) {
    a.Step? && match At(s, a.t)
               case EnqCas(_, exp) => s.head != exp
               case DeqCas(exp, _) => s.head != exp
               case _ => false
  }

  function Retries(s: State, acts: seq<Action>, t: Tid): nat
    requires IsRun(s, acts)
    decreases |acts|
  {
    if acts == [] then 0
    else (if acts[0].t == t && FailedCas(s, acts[0]) then 1 else 0)
         + Retries(Next(s, acts[0]).s, acts[1..], t)
  }

  function UpdatesByOthers(s: State, acts: seq<Action>, t: Tid): nat
    requires IsRun(s, acts)
    decreases |acts|
  {
    if acts == [] then 0
    else (var ev := Next(s, acts[0]).ev;
          if acts[0].t != t && (ev.Pushed? || ev.Popped?) then 1 else 0)
         + UpdatesByOthers(Next(s, acts[0]).s, acts[1..], t)
  }

  // The value t observed last is no longer in l->next.
  predicate Stale(s: State, t: Tid) {
    match At(s, t)
    case EnqLink(_, exp) => s.head != exp
    case EnqCas(_, exp) => s.head != exp
    case DeqRead(exp) => s.head != exp
    case DeqCas(exp, _) => s.head != exp
    case _ => false
  }

  // Each failed compare-exchange of t is paid for by a different successful update that
  // another thread made since t's last observation; no discipline is needed for this.
  lemma {:induction false} RetriesBounded(s: State, acts: seq<Action>, t: Tid)
    requires IsRun(s, acts)
    ensures Retries(s, acts, t) <= UpdatesByOthers(s, acts, t) + (if Stale(s, t) then 1 else 0)
    ensures At(s, t) == Idle ==> Retries(s, acts, t) <= UpdatesByOthers(s, acts, t)
    decreases |acts|
  {
    if acts != [] {
      RetriesBounded(Next(s, acts[0]).s, acts[1..], t);
    }
  }

  function OwnSteps(acts: seq<Action>, t: Tid): nat {
    if acts == [] then 0 else (if acts[0] == Step(t) then 1 else 0) + OwnSteps(acts[1..], t)
  }

  function CallsBy(acts: seq<Action>, t: Tid): nat {
    if acts == [] then 0 else (if !acts[0].Step? && acts[0].t == t then 1 else 0) + CallsBy(acts[1..], t)
  }

  // Steps to the next compare-exchange and past it.
  function Rank(pc: Pc): nat {
    if pc == Idle then 0 else if pc.EnqLoad? || pc.DeqLoad? then 3 else if pc.EnqLink? || pc.DeqRead? then 2 else 1
  }

  // A call takes three steps of its thread and two more for each retry.
  lemma {:induction false} OwnStepsBounded(s: State, acts: seq<Action>, t: Tid)
    requires IsRun(s, acts)
    ensures OwnSteps(acts, t) + Rank(At(Final(s, acts), t)) <=
      Rank(At(s, t)) + 3 * CallsBy(acts, t) + 2 * Retries(s, acts, t)
    decreases |acts|
  {
    if acts != [] { OwnStepsBounded(Next(s, acts[0]).s, acts[1..], t); }
  }

  // So the calls of a thread can only be kept from returning by successful calls of others.
  lemma LockFree(acts: seq<Action>, t: Tid)
    requires IsRun(INIT, acts)
    ensures OwnSteps(acts, t) <= 3 * CallsBy(acts, t) + 2 * UpdatesByOthers(INIT, acts, t)
  {
    OwnStepsBounded(INIT, acts, t);
    RetriesBounded(INIT, acts, t);
  }

  // ----- ABA is reachable -------------------------------------------------------------------

  ghost predicate CanBreakOwned(s: State, q: seq<Ptr>) {
    exists acts :: IsRun(s, acts) && Owned(s, q, acts) && !Sound(s, q, acts)
  }

  lemma {:induction false} HazardFreeIsOwned(s: State, q: seq<Ptr>, acts: seq<Action>)
    requires IsRun(s, acts) && HazardFree(s, q, acts)
    ensures Owned(s, q, acts)
    decreases |acts|
  {
    if acts != [] {
      var o := Next(s, acts[0]);
      HazardFreeIsOwned(o.s, LifoApply(q, o.ev), acts[1..]);
    }
  }

  lemma BreaksOwnedAfter(s: State, q: seq<Ptr>, a: Action)
    requires Enabled(s, a)
    requires a.CallEnqueue? ==> Free(s, q, a.n)
    requires CanBreakOwned(Next(s, a).s, LifoApply(q, Next(s, a).ev))
    ensures CanBreakOwned(s, q)
  {
    var o := Next(s, a);
    var r := LifoApply(q, o.ev);
    var rest :| IsRun(o.s, rest) && Owned(o.s, r, rest) && !Sound(o.s, r, rest);
    var acts := [a] + rest;
    assert acts[0] == a && acts[1..] == rest;
    assert Events(s, acts)[1..] == Events(o.s, rest);
    assert IsRun(s, acts) && Owned(s, q, acts) && !Sound(s, q, acts);
  }

  ghost predicate Quiet(s: State) {
    && At(s, 0) == Idle && At(s, 1) == DeqRead(1) && At(s, 2) == Idle
    && forall t :: !Enqueues(At(s, t))
  }

  lemma ReenqueueBreaks(s: State)
    requires Quiet(s)
    ensures CanBreakOwned(s, [])
  {
    var s1 := Next(s, CallEnqueue(0, 1)).s;
    EarlySuccessorBreaks(s1, [], 1, 0, 1);
    var rest :| Breaks(s1, [], rest);
    HazardFreeIsOwned(s1, [], rest);
    BreaksOwnedAfter(s, [], CallEnqueue(0, 1));
  }

  lemma PopThenReenqueueBreaks(s: State)
    requires Quiet(s) && s.head == 1
    ensures CanBreakOwned(s, [1])
  {
    var s1 := Next(s, CallDequeue(2)).s;
    var s2 := StepOf(s1, 2).s;
    var s3 := StepOf(s2, 2).s;
    var s4 := StepOf(s3, 2).s;
    forall t ensures !Enqueues(At(s4, t)) { assert !Enqueues(At(s, t)); }
    ReenqueueBreaks(s4);
    assert LifoApply([1], Popped(1)) == [];
    BreaksOwnedAfter(s3, [1], Step(2));
    BreaksOwnedAfter(s2, [1], Step(2));
    BreaksOwnedAfter(s1, [1], Step(2));
    BreaksOwnedAfter(s, [1], CallDequeue(2));
  }

  // Two dequeuers and a re-enqueued node are enough: thread 1 observes node 1, thread 2
  // pops it, and thread 0 enqueues it again.
  lemma AbaReachable()
    ensures exists acts :: IsRun(INIT, acts) && Owned(INIT, [], acts) && !Sound(INIT, [], acts)
  {
    var s1 := Next(INIT, CallEnqueue(0, 1)).s;
    var s2 := StepOf(s1, 0).s;
    var s3 := StepOf(s2, 0).s;
    var s4 := StepOf(s3, 0).s;
    var s5 := Next(s4, CallDequeue(1)).s;
    var s6 := StepOf(s5, 1).s;
    PopThenReenqueueBreaks(s6);
    BreaksOwnedAfter(s5, [1], Step(1));
    BreaksOwnedAfter(s4, [1], CallDequeue(1));
    assert LifoApply([], Pushed(1)) == [1];
    BreaksOwnedAfter(s3, [], Step(0));
    BreaksOwnedAfter(s2, [], Step(0));
    BreaksOwnedAfter(s1, [], Step(0));
    BreaksOwnedAfter(INIT, [], CallEnqueue(0, 1));
  }

  // ----- The code itself ----------------------------------------------------------------------

  // The list head, the nodes and the threads' local variables, changed in place one C
  // statement at a time.
  class SharedList {
    var head: Ptr
    var next: map<Ptr, Ptr>
    var pc: map<Tid, Pc>

    function Abs(): State
      reads this
    {
      State(head, next, pc)
    }

    // rt_ll_slist_init, with nobody at work.
    constructor ()
      ensures Abs() == INIT
    {
      head, next, pc := 0, map[], map[];
    }

    // rt_soft_atomic_compare_exchange_strong on the list head.
    method CompareExchange(expected: Ptr, desired: Ptr) returns (ok: bool, observed: Ptr)
      modifies this`head
      ensures ok <==> old(head) == expected
      ensures head == (if ok then desired else old(head))
      ensures observed == old(head)
    {
      observed := head;
      ok := head == expected;
      if ok {
        head := desired;
      }
    }

    // The next statement of a thread inside rt_ll_slist_enqueue.
    method EnqueueStep(t: Tid) returns (ev: Event)
      requires Enqueues(At(Abs(), t))
      modifies this
      ensures Outcome(Abs(), ev) == StepOf(old(Abs()), t)
    {
      ev := Tau;
      match pc[t]
      case EnqLoad(n) =>
        pc := pc[t := EnqLink(n, head)];
      case EnqLink(n, exp) =>
        next := next[n := exp];
        pc := pc[t := EnqCas(n, exp)];
      case EnqCas(n, exp) =>
        var ok, observed := CompareExchange(exp, n);
        if ok {
          pc := pc[t := Idle];
          ev := Pushed(n);
        } else {
          pc := pc[t := EnqLink(n, observed)];
          ev := Retry;
        }
    }

    // The next statement of a thread inside rt_ll_slist_dequeue.
    method DequeueStep(t: Tid) returns (ev: Event)
      requires At(Abs(), t).DeqLoad? || Holds(At(Abs(), t))
      modifies this
      ensures Outcome(Abs(), ev) == StepOf(old(Abs()), t)
    {
      ev := Tau;
      match pc[t]
      case DeqLoad =>
        if head == 0 {
          pc := pc[t := Idle];
          ev := SawEmpty;
        } else {
          pc := pc[t := DeqRead(head)];
        }
      case DeqRead(exp) =>
        pc := pc[t := DeqCas(exp, if exp in next then next[exp] else 0)];
      case DeqCas(exp, des) =>
        var ok, observed := CompareExchange(exp, des);
        if ok {
          pc := pc[t := Idle];
          ev := Popped(exp);
        } else if observed == 0 {
          pc := pc[t := Idle];
          ev := SawEmpty;
        } else {
          pc := pc[t := DeqRead(observed)];
          ev := Retry;
        }
    }

    // Runs a whole schedule of calls and steps.
    method Execute(acts: seq<Action>) returns (evs: seq<Event>)
      requires IsRun(Abs(), acts)
      modifies this
      ensures Abs() == Final(old(Abs()), acts) && evs == Events(old(Abs()), acts)
      decreases |acts|
    {
      if acts == [] {
        return [];
      }
      var ev := Tau;
      match acts[0] {
        case CallEnqueue(t, n) => pc := pc[t := EnqLoad(n)];
        case CallDequeue(t) => pc := pc[t := DeqLoad];
        case Step(t) =>
          if Enqueues(pc[t]) {
            ev := EnqueueStep(t);
          } else {
            ev := DequeueStep(t);
          }
      }
      var rest := Execute(acts[1..]);
      evs := [ev] + rest;
    }

    // From a fresh list and with no node enqueued twice, the events of any schedule are those
    // of an atomic LIFO, whose contents the nodes hold at the end.
    method ExecuteOnceOnly(acts: seq<Action>) returns (evs: seq<Event>)
      requires Abs() == INIT && IsRun(INIT, acts) && NoDup(EnqueueCalls(acts))
      modifies this
      ensures Accepts([], evs) && Chain(Abs(), head, Apply([], evs))
      ensures PushedNodes(evs) == PoppedNodes(evs) + multiset(Apply([], evs))
      ensures evs == Events(INIT, acts) && CallsReturn(acts)
    {
      OnceOnlyLinearizable(acts);
      evs := Execute(acts);
    }
  }
}

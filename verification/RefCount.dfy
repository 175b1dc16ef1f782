// rt_atomic_fetch_add_unless as a transition system with any number of threads, and the
// reference-count protocol of rt_atomic_inc_not_zero and rt_atomic_dec_and_test on it.
module RefCount {
  import opened AtomicCell
  import opened Sequences

  type Tid = nat

  datatype Pc =
    | Idle
    | AtLoad(a: Word, u: Word)          // before c = load(ptr)
    | AtCas(a: Word, u: Word, c: Word)  // c was observed and differs from u

  datatype State = State(value: Word, pc: map<Tid, Pc>)

  // Fetch is rt_atomic_add or rt_atomic_sub, a single atomic step.
  datatype Action = Call(t: Tid, a: Word, u: Word) | Step(t: Tid) | Fetch(t: Tid, d: Word)

  // Unless and Fetched report an operation of t that returned ret in this very step.
  datatype Event =
    | Tau
    | Retry
    | Unless(t: Tid, a: Word, u: Word, ret: Word)
    | Fetched(t: Tid, d: Word, ret: Word)

  datatype Outcome = Outcome(s: State, ev: Event)

  function At(s: State, t: Tid): Pc {
    if t in s.pc then s.pc[t] else Idle
  }

  function Goto(s: State, t: Tid, pc: Pc): State {
    s.(pc := s.pc[t := pc])
  }

  predicate Enabled(s: State, a: Action) {
    if a.Step? then At(s, a.t) != Idle else At(s, a.t) == Idle
  }

  // `if (c == u) break;` after c has observed the current value.
  function Observe(s: State, t: Tid, a: Word, u: Word, again: Event): Outcome {
    if s.value == u then Outcome(Goto(s, t, Idle), Unless(t, a, u, s.value))
    else Outcome(Goto(s, t, AtCas(a, u, s.value)), again)
  }

  function Next(s: State, act: Action): Outcome
    requires Enabled(s, act)
  {
    match act
    case Call(t, a, u) => Outcome(Goto(s, t, AtLoad(a, u)), Tau)
    case Fetch(t, d) => Outcome(s.(value := Wrap(s.value + d)), Fetched(t, d, s.value))
    case Step(t) =>
      match At(s, t)
      case AtLoad(a, u) => Observe(s, t, a, u, Tau)
      case AtCas(a, u, c) =>
        if s.value == c then Outcome(Goto(s.(value := Wrap(c + a)), t, Idle), Unless(t, a, u, c))
        else Observe(s, t, a, u, Retry)
  }

  predicate IsRun(s: State, acts: seq<Action>)
    decreases |acts|
  {
    acts == [] || (Enabled(s, acts[0]) && IsRun(Next(s, acts[0]).s, acts[1..]))
  }

  function Final(s: State, acts: seq<Action>): State
    requires IsRun(s, acts)
    decreases |acts|
  {
    if acts == [] then s else Final(Next(s, acts[0]).s, acts[1..])
  }

  function Events(s: State, acts: seq<Action>): seq<Event>
    requires IsRun(s, acts)
    decreases |acts|
  {
    if acts == [] then []
    else [Next(s, acts[0]).ev] + Events(Next(s, acts[0]).s, acts[1..])
  }

  // ----- The specification: one word changed by atomic operations -------------------------

  predicate WordAccepts(v: Word, ev: Event) {
    match ev
    case Unless(_, _, _, ret) => ret == v
    case Fetched(_, _, ret) => ret == v
    case _ => true
  }

  function WordApply(v: Word, ev: Event): Word {
    match ev
    case Unless(_, a, u, _) => AddUnless(v, a, u)
    case Fetched(_, d, _) => Wrap(v + d)
    case _ => v
  }

  predicate Accepts(v: Word, evs: seq<Event>)
    decreases |evs|
  {
    evs == [] || (WordAccepts(v, evs[0]) && Accepts(WordApply(v, evs[0]), evs[1..]))
  }

  function Apply(v: Word, evs: seq<Event>): Word
    decreases |evs|
  {
    if evs == [] then v else Apply(WordApply(v, evs[0]), evs[1..])
  }

  // A thread about to compare-exchange has not observed the value it must leave alone.
  ghost predicate Inv(s: State) {
    forall t :: At(s, t).AtCas? ==> At(s, t).c != At(s, t).u
  }

  lemma StepKeepsInv(s: State, act: Action)
    requires Inv(s) && Enabled(s, act)
    ensures Inv(Next(s, act).s)
  {
    var s' := Next(s, act).s;
    forall t | At(s', t).AtCas? ensures At(s', t).c != At(s', t).u {
      assert At(s, t).AtCas? ==> At(s, t).c != At(s, t).u;
    }
  }

  // Every operation takes effect atomically, in the step in which it returns, whatever
  // the other threads do in between.
  lemma {:induction false} FetchAddUnlessIsAtomic(s: State, acts: seq<Action>)
    requires Inv(s) && IsRun(s, acts)
    ensures Accepts(s.value, Events(s, acts))
    ensures Final(s, acts).value == Apply(s.value, Events(s, acts))
    decreases |acts|
  {
    if acts != [] {
      var o := Next(s, acts[0]);
      StepKeepsInv(s, acts[0]);
      assert At(s, acts[0].t).AtCas? ==> At(s, acts[0].t).c != At(s, acts[0].t).u;
      FetchAddUnlessIsAtomic(o.s, acts[1..]);
      assert Events(s, acts)[1..] == Events(o.s, acts[1..]);
    }
  }

  // ----- Calls and returns --------------------------------------------------------------------

  // A thread leaves an add-unless exactly when it returns, with its own operands; until then
  // it goes on with the same call.
  lemma StepReturns(s: State, act: Action)
    requires Enabled(s, act)
    ensures var o := Next(s, act); var pc, pc' := At(s, act.t), At(o.s, act.t);
      && (forall t :: t != act.t ==> At(o.s, t) == At(s, t))
      && (act.Call? ==> pc' == AtLoad(act.a, act.u) && o.ev == Tau)
      && (act.Fetch? ==> pc' == Idle && o.ev == Fetched(act.t, act.d, s.value))
      && (act.Step? ==>
            if pc' == Idle then o.ev == Unless(act.t, pc.a, pc.u, s.value)
            else pc'.AtCas? && pc'.a == pc.a && pc'.u == pc.u && (o.ev == Tau || o.ev == Retry))
  {
  }

  datatype Operands = Operands(a: Word, u: Word)

  function CallsBy(acts: seq<Action>, t: Tid): seq<Operands> {
    if acts == [] then []
    else (if acts[0].Call? && acts[0].t == t then [Operands(acts[0].a, acts[0].u)] else []) + CallsBy(acts[1..], t)
  }

  function ReturnsTo(evs: seq<Event>, t: Tid): seq<Operands> {
    if evs == [] then []
    else (if evs[0].Unless? && evs[0].t == t then [Operands(evs[0].a, evs[0].u)] else []) + ReturnsTo(evs[1..], t)
  }

  function InProgress(pc: Pc): seq<Operands> {
    if pc == Idle then [] else [Operands(pc.a, pc.u)]
  }

  // Each call returns, in order, or is the one its thread is still in. With Accepts this
  // means that a take fails only when it found the count at zero.
  lemma {:induction false} CallsReturn(s: State, acts: seq<Action>, t: Tid)
    requires IsRun(s, acts)
    ensures InProgress(At(s, t)) + CallsBy(acts, t) == ReturnsTo(Events(s, acts), t) + InProgress(At(Final(s, acts), t))
    decreases |acts|
  {
    if acts != [] {
      var act, o := acts[0], Next(s, acts[0]);
      var call := if act.Call? && act.t == t then [Operands(act.a, act.u)] else [];
      var ret := if o.ev.Unless? && o.ev.t == t then [Operands(o.ev.a, o.ev.u)] else [];
      StepReturns(s, act);
      CallsReturn(o.s, acts[1..], t);
      assert Events(s, acts)[1..] == Events(o.s, acts[1..]);
      assert InProgress(At(s, t)) + call == ret + InProgress(At(o.s, t));
      Chained(InProgress(At(s, t)), call, ret, InProgress(At(o.s, t)), CallsBy(acts[1..], t),
              ReturnsTo(Events(o.s, acts[1..]), t), InProgress(At(Final(s, acts), t)));
    }
  }

  // ----- Progress --------------------------------------------------------------------------

  predicate FailedCas(s: State, act: Action) {
    act.Step? && At(s, act.t).AtCas? && s.value != At(s, act.t).c
  }

  function Retries(s: State, acts: seq<Action>, t: Tid): nat
    requires IsRun(s, acts)
    decreases |acts|
  {
    if acts == [] then 0
    else (if acts[0].t == t && FailedCas(s, acts[0]) then 1 else 0)
         + Retries(Next(s, acts[0]).s, acts[1..], t)
  }

  // How often a step of another thread changed the value.
  function ChangesByOthers(s: State, acts: seq<Action>, t: Tid): nat
    requires IsRun(s, acts)
    decreases |acts|
  {
    if acts == [] then 0
    else (if acts[0].t != t && Next(s, acts[0]).s.value != s.value then 1 else 0)
         + ChangesByOthers(Next(s, acts[0]).s, acts[1..], t)
  }

  lemma {:induction false} RetriesBounded(s: State, acts: seq<Action>, t: Tid)
    requires IsRun(s, acts)
    ensures Retries(s, acts, t) <= ChangesByOthers(s, acts, t) +
              (if At(s, t).AtCas? && At(s, t).c != s.value then 1 else 0)
    ensures At(s, t) == Idle ==> Retries(s, acts, t) <= ChangesByOthers(s, acts, t)
    decreases |acts|
  {
    if acts != [] {
      RetriesBounded(Next(s, acts[0]).s, acts[1..], t);
    }
  }

  function OwnSteps(acts: seq<Action>, t: Tid): nat {
    if acts == [] then 0 else (if acts[0] == Step(t) then 1 else 0) + OwnSteps(acts[1..], t)
  }

  // A call takes two steps of its thread and one more for each retry, so for each change by
  // another thread.
  lemma {:induction false} OwnStepsBounded(s: State, acts: seq<Action>, t: Tid)
    requires IsRun(s, acts)
    ensures OwnSteps(acts, t) + Rank(At(Final(s, acts), t)) <=
      Rank(At(s, t)) + 2 * |CallsBy(acts, t)| + Retries(s, acts, t)
    decreases |acts|
  {
    if acts != [] { OwnStepsBounded(Next(s, acts[0]).s, acts[1..], t); }
  }

  function Rank(pc: Pc): nat {
    if pc == Idle then 0 else if pc.AtLoad? then 2 else 1
  }

  // ----- Reference counting ------------------------------------------------------------------

  // The references held after an event, one element per reference. A successful
  // rt_atomic_inc_not_zero adds one, a decrement drops one.
  function HoldersAfter(h: multiset<Tid>, ev: Event): multiset<Tid> {
    match ev
    case Unless(t, _, _, ret) => if ret != 0 then h + multiset{t} else h
    case Fetched(t, _, _) => h - multiset{t}
    case _ => h
  }

  function Holders(h: multiset<Tid>, evs: seq<Event>): multiset<Tid>
    decreases |evs|
  {
    if evs == [] then h else Holders(HoldersAfter(h, evs[0]), evs[1..])
  }

  // The protocol: references are taken with rt_atomic_inc_not_zero only, and a thread drops
  // only a reference it holds.
  predicate Obeys(s: State, h: multiset<Tid>, acts: seq<Action>)
    requires IsRun(s, acts)
    decreases |acts|
  {
    acts == [] ||
    (var o := Next(s, acts[0]);
     && (acts[0].Call? ==> acts[0].a == 1 && acts[0].u == 0)
     && (acts[0].Fetch? ==> acts[0].d == -1 && acts[0].t in h)
     && Obeys(o.s, HoldersAfter(h, o.ev), acts[1..]))
  }

  // Before every step the word has room for one more reference.
  predicate Fits(s: State, h: multiset<Tid>, acts: seq<Action>)
    requires IsRun(s, acts)
    decreases |acts|
  {
    acts == [] ||
    (var o := Next(s, acts[0]);
     |h| < HALF - 1 && Fits(o.s, HoldersAfter(h, o.ev), acts[1..]))
  }

  // Drops for which rt_atomic_dec_and_test returned true.
  function LastDrops(evs: seq<Event>): nat {
    if evs == [] then 0
    else (if evs[0].Fetched? && evs[0].ret == 1 then 1 else 0) + LastDrops(evs[1..])
  }

  function Takes(evs: seq<Event>): nat {
    if evs == [] then 0
    else (if evs[0].Unless? && evs[0].ret != 0 then 1 else 0) + Takes(evs[1..])
  }

  ghost predicate Counting(s: State, h: multiset<Tid>) {
    && s.value == |h|
    && Inv(s)
    && forall t :: (At(s, t).AtLoad? || At(s, t).AtCas?) ==> At(s, t).a == 1 && At(s, t).u == 0
  }

  lemma StepCounts(s: State, h: multiset<Tid>, act: Action)
    requires Counting(s, h) && Enabled(s, act) && |h| < HALF - 1
    requires act.Fetch? ==> act.d == -1 && act.t in h
    ensures Next(s, act).s.value == |HoldersAfter(h, Next(s, act).ev)|
  {
    if act.Fetch? {
      assert h == (h - multiset{act.t}) + multiset{act.t};
    } else if act.Step? {
      assert At(s, act.t).a == 1 && At(s, act.t).u == 0;
      assert At(s, act.t).AtCas? ==> At(s, act.t).c != 0;
    }
  }

  lemma StepKeepsCounting(s: State, h: multiset<Tid>, act: Action)
    requires Counting(s, h) && Enabled(s, act) && |h| < HALF - 1
    requires act.Call? ==> act.a == 1 && act.u == 0
    requires act.Fetch? ==> act.d == -1 && act.t in h
    ensures Counting(Next(s, act).s, HoldersAfter(h, Next(s, act).ev))
  {
    var s' := Next(s, act).s;
    StepKeepsInv(s, act);
    StepCounts(s, h, act);
    forall t | At(s', t).AtLoad? || At(s', t).AtCas? ensures At(s', t).a == 1 && At(s', t).u == 0 {
      assert (At(s, t).AtLoad? || At(s, t).AtCas?) ==> At(s, t).a == 1 && At(s, t).u == 0;
    }
  }

  // What the events of an obedient run say about the references: each operation returns
  // their exact number at that moment.
  predicate Accounted(h: multiset<Tid>, evs: seq<Event>)
    decreases |evs|
  {
    evs == [] ||
    (&& (evs[0].Unless? ==> evs[0].ret == |h|)
     && (evs[0].Fetched? ==> evs[0].ret == |h| && evs[0].t in h)
     && Accounted(HoldersAfter(h, evs[0]), evs[1..]))
  }

  lemma {:induction false} RunIsAccounted(s: State, h: multiset<Tid>, acts: seq<Action>)
    requires Counting(s, h) && IsRun(s, acts) && Obeys(s, h, acts) && Fits(s, h, acts)
    ensures Accounted(h, Events(s, acts))
    ensures Final(s, acts).value == |Holders(h, Events(s, acts))|
    decreases |acts|
  {
    if acts != [] {
      var o := Next(s, acts[0]);
      StepKeepsCounting(s, h, acts[0]);
      assert At(s, acts[0].t).AtCas? ==> At(s, acts[0].t).c != At(s, acts[0].t).u;
      RunIsAccounted(o.s, HoldersAfter(h, o.ev), acts[1..]);
      assert Events(s, acts)[1..] == Events(o.s, acts[1..]);
    }
  }

  lemma {:induction false} LastDropOnce(h: multiset<Tid>, evs: seq<Event>)
    requires Accounted(h, evs)
    ensures var h' := Holders(h, evs);
      && LastDrops(evs) == (if |h| > 0 && |h'| == 0 then 1 else 0)
      && (|h| == 0 ==> Takes(evs) == 0 && |h'| == 0)
    decreases |evs|
  {
    if evs != [] {
      if evs[0].Fetched? { assert h == (h - multiset{evs[0].t}) + multiset{evs[0].t}; }
      LastDropOnce(HoldersAfter(h, evs[0]), evs[1..]);
    }
  }

  // Over a whole run, of any length, that never holds more references at once than the word
  // can count: the counter is the number of references; a drop returns true exactly when it
  // drops the last one, which happens once if everything ends up dropped and never
  // otherwise; and once the count is zero no take succeeds.
  lemma CounterIsReferences(s: State, h: multiset<Tid>, acts: seq<Action>)
    requires Counting(s, h) && IsRun(s, acts) && Obeys(s, h, acts) && Fits(s, h, acts)
    ensures var evs := Events(s, acts); var h' := Holders(h, evs);
      && Final(s, acts).value == |h'|
      && (forall t :: At(s, t) == Idle ==> CallsBy(acts, t) == ReturnsTo(evs, t) + InProgress(At(Final(s, acts), t)))
      && LastDrops(evs) == (if |h| > 0 && |h'| == 0 then 1 else 0)
      && (|h| == 0 ==> Takes(evs) == 0 && |h'| == 0)
  {
    RunIsAccounted(s, h, acts);
    LastDropOnce(h, Events(s, acts));
    forall t | At(s, t) == Idle
      ensures CallsBy(acts, t) == ReturnsTo(Events(s, acts), t) + InProgress(At(Final(s, acts), t))
    {
      CallsReturn(s, acts, t);
      assert InProgress(At(s, t)) + CallsBy(acts, t) == CallsBy(acts, t);
    }
  }
}

// The hook-list protocol of rtdef.h: RT_OBJECT_HOOKLIST_CALL walks an intrusive list without
// holding the lock, name_sethook and name_rmhook change it. A transition system with any
// number of activities; every shared load and every pointer store is a step of its own.
module HookList {
  type Id = nat

  // A list node; 0 is the list head name_hooklist.
  type Node = nat

  // A node without an entry is linked to itself, as RT_LIST_OBJECT_INIT leaves it.
  datatype Heap = Heap(next: map<Node, Node>, prev: map<Node, Node>)

  datatype Op = SetHook(n: Node) | RmHook(n: Node)

  datatype CallPc =
    | Lock1 | Incr | Unlock1      // nested += 1 under the lock
    | Check                       // rt_list_isempty
    | First | Second(pos: Node)   // pos = head->next, n = pos->next
    | Loop(pos: Node, n: Node)    // test, then run the handler of pos
    | Advance(n: Node)            // inside the handler; then pos = n, n = n->next
    | Lock2 | Decr | Unlock2      // nested -= 1 under the lock
    | CallDone

  datatype MutatePc = MLock | MTest | MRetry | MWrite(k: nat) | MUnlock | MDone

  // Where an activity was begun: by a thread on its own account, or by the handler that the
  // given call is running.
  datatype Origin = Top | Within(call: Id)

  // One execution of the call macro or of sethook or rmhook. `ran` lists the handlers begun
  // so far; `snap` is a history variable, the hooks registered when this call incremented
  // nested.
  datatype Activity =
    | Call(cpc: CallPc, ran: seq<Node>, snap: seq<Node>, from: Origin)
    | Mutate(op: Op, mpc: MutatePc, from: Origin)

  datatype Lock = Unlocked | LockedBy(owner: Id)

  // `hooks` is a history variable: the registered hooks in registration order. It changes
  // with the last pointer store of a sethook or rmhook.
  datatype State = State(heap: Heap, nested: nat, lock: Lock, hooks: seq<Node>, acts: map<Id, Activity>)

  datatype Action = StartCall(a: Id, from: Origin) | StartMutate(a: Id, op: Op, from: Origin) | Step(a: Id)

  const INIT := State(Heap(map[], map[]), 0, Unlocked, [], map[])

  function NextOf(h: Heap, n: Node): Node { if n in h.next then h.next[n] else n }

  function PrevOf(h: Heap, n: Node): Node { if n in h.prev then h.prev[n] else n }

  function SetNext(h: Heap, n: Node, v: Node): Heap { h.(next := h.next[n := v]) }

  function SetPrev(h: Heap, n: Node, v: Node): Heap { h.(prev := h.prev[n := v]) }

  // The k-th of the four stores of rt_list_insert_before(&name_hooklist, n) and of
  // rt_list_remove(n).
  function Store(h: Heap, op: Op, k: nat): Heap {
    match op
    case SetHook(n) =>
      if k == 0 then SetNext(h, PrevOf(h, 0), n)
      else if k == 1 then SetPrev(h, n, PrevOf(h, 0))
      else if k == 2 then SetPrev(h, 0, n)
      else SetNext(h, n, 0)
    case RmHook(n) =>
      if k == 0 then SetPrev(h, NextOf(h, n), PrevOf(h, n))
      else if k == 1 then SetNext(h, PrevOf(h, n), NextOf(h, n))
      else if k == 2 then SetPrev(h, n, n)
      else SetNext(h, n, n)
  }

  function Delete(q: seq<Node>, n: Node): seq<Node> {
    if q == [] then [] else if q[0] == n then q[1..] else [q[0]] + Delete(q[1..], n)
  }

  function Registered(q: seq<Node>, op: Op): seq<Node> {
    match op
    case SetHook(n) => q + [n]
    case RmHook(n) => Delete(q, n)
  }

  predicate NeedsLock(act: Activity) {
    match act
    case Call(pc, _, _, _) => pc.Lock1? || pc.Lock2?
    case Mutate(_, pc, _) => pc.MLock?
  }

  predicate Done(act: Activity) {
    match act
    case Call(pc, _, _, _) => pc.CallDone?
    case Mutate(_, pc, _) => pc.MDone?
  }

  // The call is inside a handler.
  predicate Handling(act: Activity) {
    act.Call? && act.cpc.Advance?
  }

  // The handler that call c is running waits for a call or mutation of its own.
  predicate Busy(s: State, c: Id) {
    exists b :: b in s.acts && s.acts[b].from == Within(c) && !Done(s.acts[b])
  }

  // A handler does one thing at a time and is over before its call goes on. Activities begun
  // inside a call have higher numbers than the call.
  predicate Enabled(s: State, action: Action) {
    if action.Step? then
      && action.a in s.acts && !Done(s.acts[action.a])
      && (NeedsLock(s.acts[action.a]) ==> s.lock == Unlocked)
      && (Handling(s.acts[action.a]) ==> !Busy(s, action.a))
    else
      && action.a !in s.acts
      && (action.from.Within? ==>
            && action.from.call in s.acts && action.from.call < action.a
            && Handling(s.acts[action.from.call]) && !Busy(s, action.from.call))
  }

  function With(s: State, a: Id, act: Activity): State { s.(acts := s.acts[a := act]) }

  function StepCall(s: State, a: Id, c: Activity): State
    requires c.Call?
  {
    match c.cpc
    case Lock1 => With(s.(lock := LockedBy(a)), a, c.(cpc := Incr))
    case Incr => With(s.(nested := s.nested + 1), a, c.(cpc := Unlock1, snap := s.hooks))
    case Unlock1 => With(s.(lock := Unlocked), a, c.(cpc := Check))
    case Check => With(s, a, c.(cpc := if NextOf(s.heap, 0) == 0 then Lock2 else First))
    case First => With(s, a, c.(cpc := Second(NextOf(s.heap, 0))))
    case Second(pos) => With(s, a, c.(cpc := Loop(pos, NextOf(s.heap, pos))))
    case Loop(pos, n) =>
      if pos == 0 then With(s, a, c.(cpc := Lock2))
      else With(s, a, c.(cpc := Advance(n), ran := c.ran + [pos]))
    case Advance(n) => With(s, a, c.(cpc := Loop(n, NextOf(s.heap, n))))
    case Lock2 => With(s.(lock := LockedBy(a)), a, c.(cpc := Decr))
    case Decr => With(s.(nested := if s.nested == 0 then 0 else s.nested - 1), a, c.(cpc := Unlock2))
    case Unlock2 => With(s.(lock := Unlocked), a, c.(cpc := CallDone))
    case CallDone => s
  }

  function StepMutate(s: State, a: Id, m: Activity): State
    requires m.Mutate?
  {
    match m.mpc
    case MLock => With(s.(lock := LockedBy(a)), a, m.(mpc := MTest))
    case MTest => With(s, a, m.(mpc := if s.nested != 0 then MRetry else MWrite(0)))
    case MRetry => With(s.(lock := Unlocked), a, m.(mpc := MLock))
    case MWrite(k) =>
      var s' := s.(heap := Store(s.heap, m.op, k));
      if k < 3 then With(s', a, m.(mpc := MWrite(k + 1)))
      else With(s'.(hooks := Registered(s.hooks, m.op)), a, m.(mpc := MUnlock))
    case MUnlock => With(s.(lock := Unlocked), a, m.(mpc := MDone))
    case MDone => s
  }

  function Next(s: State, action: Action): State
    requires Enabled(s, action)
  {
    match action
    case StartCall(a, from) => With(s, a, Call(Lock1, [], [], from))
    case StartMutate(a, op, from) => With(s, a, Mutate(op, MLock, from))
    case Step(a) =>
      if s.acts[a].Call? then StepCall(s, a, s.acts[a]) else StepMutate(s, a, s.acts[a])
  }

  // ----- What callers owe ---------------------------------------------------------------------

  // A sethook that has not registered its node yet.
  predicate Pending(act: Activity, n: Node) {
    act.Mutate? && act.op == SetHook(n) && !act.mpc.MUnlock? && !act.mpc.MDone?
  }

  // A node is registered only while it is in no list and nobody is registering it; rmhook
  // may name any node that is not the list head.
  predicate Obeys(s: State, action: Action) {
    action.StartMutate? ==>
      && action.op.n != 0
      && (action.op.SetHook? ==>
            action.op.n !in s.hooks && forall b :: b in s.acts ==> !Pending(s.acts[b], action.op.n))
  }

  // ----- The heap shape --------------------------------------------------------------------------

  function RingAt(q: seq<Node>, i: nat): Node {
    if 0 < i <= |q| then q[i - 1] else 0
  }

  // The head and q, in this order, form the ring; every other node is linked to itself.
  ghost predicate RingHeap(h: Heap, q: seq<Node>) {
    && (forall i, j :: 0 <= i < j <= |q| ==> RingAt(q, i) != RingAt(q, j))
    && (forall i :: 0 <= i <= |q| ==> NextOf(h, RingAt(q, i)) == RingAt(q, i + 1))
    && (forall i :: 0 <= i <= |q| ==> PrevOf(h, RingAt(q, i + 1)) == RingAt(q, i))
    && (forall n :: n != 0 && n !in q ==> NextOf(h, n) == n && PrevOf(h, n) == n)
  }

  function Stores(h: Heap, op: Op, k: nat): Heap {
    if k == 0 then h else Store(Stores(h, op, k - 1), op, k - 1)
  }

  lemma SetStores(h: Heap, n: Node)
    requires n != 0 && PrevOf(h, 0) != n
    ensures var h' := Stores(h, SetHook(n), 4); var tail := PrevOf(h, 0);
      forall x ::
        && NextOf(h', x) == (if x == n then 0 else if x == tail then n else NextOf(h, x))
        && PrevOf(h', x) == (if x == 0 then n else if x == n then tail else PrevOf(h, x))
  {
    var op := SetHook(n);
    var h1 := Store(h, op, 0);
    var h2 := Store(h1, op, 1);
    var h3 := Store(h2, op, 2);
    assert Stores(h, op, 1) == h1;
    assert Stores(h, op, 2) == h2;
    assert Stores(h, op, 3) == h3;
  }

  lemma RmStores(h: Heap, n: Node)
    requires (NextOf(h, n) == n) == (PrevOf(h, n) == n)
    ensures var h' := Stores(h, RmHook(n), 4);
      forall x ::
        && NextOf(h', x) == (if x == n then n else if x == PrevOf(h, n) then NextOf(h, n) else NextOf(h, x))
        && PrevOf(h', x) == (if x == n then n else if x == NextOf(h, n) then PrevOf(h, n) else PrevOf(h, x))
  {
    var op := RmHook(n);
    var h1 := Store(h, op, 0);
    var h2 := Store(h1, op, 1);
    var h3 := Store(h2, op, 2);
    assert Stores(h, op, 1) == h1;
    assert Stores(h, op, 2) == h2;
    assert Stores(h, op, 3) == h3;
  }

  lemma RingMember(q: seq<Node>, n: Node) returns (i: nat)
    requires n in q
    ensures 0 < i <= |q| && RingAt(q, i) == n
  {
    var k :| 0 <= k < |q| && q[k] == n;
    i := k + 1;
  }

  // The four stores of a sethook, once all done, append n at the tail of the ring.
  lemma SetExtendsRing(h: Heap, q: seq<Node>, n: Node)
    requires RingHeap(h, q) && n != 0 && n !in q
    ensures RingHeap(Stores(h, SetHook(n), 4), q + [n])
  {
    var h', r, m := Stores(h, SetHook(n), 4), q + [n], |q|;
    assert PrevOf(h, RingAt(q, m + 1)) == RingAt(q, m);
    assert RingAt(q, m) == PrevOf(h, 0) != n;
    SetStores(h, n);
    assert forall i :: 0 <= i <= m ==> RingAt(r, i) == RingAt(q, i) && RingAt(q, i) != n;
    assert RingAt(r, m + 1) == n && RingAt(r, m + 2) == 0;
    forall i | 0 <= i <= |r| ensures NextOf(h', RingAt(r, i)) == RingAt(r, i + 1) {
      if i < m {
        assert RingAt(q, i) != RingAt(q, m);
        assert RingAt(r, i + 1) == RingAt(q, i + 1);
      }
    }
    forall i | 0 <= i <= |r| ensures PrevOf(h', RingAt(r, i + 1)) == RingAt(r, i) {
      if i < m {
        assert RingAt(r, i + 1) == RingAt(q, i + 1) && RingAt(q, 0) != RingAt(q, i + 1);
        assert PrevOf(h, RingAt(q, i + 1)) == RingAt(q, i);
      }
    }
    forall i, j | 0 <= i < j <= |r| ensures RingAt(r, i) != RingAt(r, j) {
      if j <= m { assert RingAt(q, i) != RingAt(q, j); }
    }
  }

  lemma {:induction false} DeleteIs(q: seq<Node>, k: nat)
    requires k < |q| && forall i :: 0 <= i < k ==> q[i] != q[k]
    ensures Delete(q, q[k]) == q[..k] + q[k + 1..]
  {
    if k > 0 {
      DeleteIs(q[1..], k - 1);
      assert q[1..][..k - 1] == q[1..k] && q[1..][k..] == q[k + 1..];
      assert [q[0]] + q[1..k] == q[..k];
    }
  }

  lemma {:induction false} DeleteAbsent(q: seq<Node>, n: Node)
    requires n !in q
    ensures Delete(q, n) == q
  {
    if q != [] {
      DeleteAbsent(q[1..], n);
    }
  }

  // Removing a registered node closes the ring behind it; removing any other is no change.
  lemma RmShrinksRing(h: Heap, q: seq<Node>, n: Node)
    requires RingHeap(h, q) && n != 0
    ensures RingHeap(Stores(h, RmHook(n), 4), Delete(q, n))
  {
    if n !in q {
      DeleteAbsent(q, n);
      RmStores(h, n);
    } else {
      var p := RingMember(q, n);
      forall i | 0 <= i < p - 1 ensures q[i] != q[p - 1] {
        assert RingAt(q, i + 1) != RingAt(q, p);
      }
      DeleteIs(q, p - 1);
      RmFromRing(h, q, p);
    }
  }

  // Facts about the neighbours of the node at position p of the ring.
  lemma RingNeighbours(h: Heap, q: seq<Node>, p: nat)
    requires RingHeap(h, q) && 0 < p <= |q|
    ensures RingAt(q, p) == q[p - 1] != 0
    ensures NextOf(h, q[p - 1]) == RingAt(q, p + 1) != q[p - 1]
    ensures PrevOf(h, q[p - 1]) == RingAt(q, p - 1) != q[p - 1]
  {
    assert RingAt(q, p) != RingAt(q, 0);
    assert p < |q| ==> RingAt(q, p) != RingAt(q, p + 1);
    assert RingAt(q, p - 1) != RingAt(q, p);
  }

  // Positions of the ring without its p-th node.
  lemma ShiftAt(q: seq<Node>, p: nat, i: nat)
    requires 0 < p <= |q|
    ensures RingAt(q[..p - 1] + q[p..], i) == RingAt(q, if i < p then i else i + 1)
  {
  }

  lemma RmDistinct(h: Heap, q: seq<Node>, p: nat, i: nat, j: nat)
    requires RingHeap(h, q) && 0 < p <= |q| && i < j < |q|
    ensures var r := q[..p - 1] + q[p..]; RingAt(r, i) != RingAt(r, j)
  {
    ShiftAt(q, p, i);
    ShiftAt(q, p, j);
    assert RingAt(q, if i < p then i else i + 1) != RingAt(q, if j < p then j else j + 1);
  }

  lemma RmFromRing(h: Heap, q: seq<Node>, p: nat)
    requires RingHeap(h, q) && 0 < p <= |q|
    ensures RingHeap(Stores(h, RmHook(q[p - 1]), 4), q[..p - 1] + q[p..])
  {
    var r, h' := q[..p - 1] + q[p..], Stores(h, RmHook(q[p - 1]), 4);
    forall i | 0 <= i <= |r|
      ensures NextOf(h', RingAt(r, i)) == RingAt(r, i + 1) && PrevOf(h', RingAt(r, i + 1)) == RingAt(r, i)
    {
      ShiftAt(q, p, i);
      ShiftAt(q, p, i + 1);
      RmNext(h, q, p, i);
      RmPrev(h, q, p, i);
    }
    forall i, j | 0 <= i < j <= |r| ensures RingAt(r, i) != RingAt(r, j) {
      RmDistinct(h, q, p, i, j);
    }
    forall x | x != 0 && x !in r ensures NextOf(h', x) == x && PrevOf(h', x) == x {
      RmOutside(h, q, p, x);
    }
  }

  lemma RmOutside(h: Heap, q: seq<Node>, p: nat, x: Node)
    requires RingHeap(h, q) && 0 < p <= |q| && x != 0 && x !in q[..p - 1] + q[p..]
    ensures var h' := Stores(h, RmHook(q[p - 1]), 4); NextOf(h', x) == x && PrevOf(h', x) == x
  {
    RingNeighbours(h, q, p);
    RmStores(h, q[p - 1]);
    if x != q[p - 1] {
      assert q == q[..p - 1] + [q[p - 1]] + q[p..];
      assert p < |q| ==> RingAt(q, p + 1) in q;
      assert p > 1 ==> RingAt(q, p - 1) in q;
    }
  }

  lemma RmNext(h: Heap, q: seq<Node>, p: nat, i: nat)
    requires RingHeap(h, q) && 0 < p <= |q| && i < |q|
    ensures var n := q[p - 1]; var h' := Stores(h, RmHook(n), 4);
      NextOf(h', RingAt(q, if i < p then i else i + 1)) == RingAt(q, if i + 1 < p then i + 1 else i + 2)
  {
    RingNeighbours(h, q, p);
    RmStores(h, q[p - 1]);
    var k := if i < p then i else i + 1;
    assert NextOf(h, RingAt(q, k)) == RingAt(q, k + 1);
    if k < p - 1 {
      assert RingAt(q, k) != RingAt(q, p - 1) && RingAt(q, k) != RingAt(q, p);
    } else if k > p {
      assert RingAt(q, p - 1) != RingAt(q, k) && RingAt(q, p) != RingAt(q, k);
    }
  }

  lemma RmPrev(h: Heap, q: seq<Node>, p: nat, i: nat)
    requires RingHeap(h, q) && 0 < p <= |q| && i < |q|
    ensures var n := q[p - 1]; var h' := Stores(h, RmHook(n), 4);
      PrevOf(h', RingAt(q, if i + 1 < p then i + 1 else i + 2)) == RingAt(q, if i < p then i else i + 1)
  {
    RingNeighbours(h, q, p);
    RmStores(h, q[p - 1]);
    var k := if i + 1 < p then i + 1 else i + 2;
    assert PrevOf(h, RingAt(q, k)) == RingAt(q, k - 1);
    if k < p {
      assert RingAt(q, k) != RingAt(q, p) && RingAt(q, k) != RingAt(q, 0);
      assert p < |q| ==> RingAt(q, k) != RingAt(q, p + 1);
    } else if k > p + 1 {
      assert RingAt(q, p + 1) != RingAt(q, if k <= |q| then k else 0);
      assert RingAt(q, p) != RingAt(q, if k <= |q| then k else 0);
    }
  }

  // ----- The invariant ----------------------------------------------------------------------------

  // The activity is between a lock and the matching unlock.
  predicate Inside(act: Activity) {
    match act
    case Call(pc, _, _, _) => pc.Incr? || pc.Unlock1? || pc.Decr? || pc.Unlock2?
    case Mutate(_, pc, _) => !pc.MLock? && !pc.MDone?
  }

  // The call has incremented nested and not decremented it yet.
  predicate Active(act: Activity) {
    act.Call? && !act.cpc.Lock1? && !act.cpc.Incr? && !act.cpc.Unlock2? && !act.cpc.CallDone?
  }

  predicate Writing(act: Activity) {
    act.Mutate? && act.mpc.MWrite?
  }

  function ActiveIds(s: State): set<Id> {
    set a | a in s.acts && Active(s.acts[a])
  }

  ghost predicate Locking(s: State) {
    && (forall a :: a in s.acts ==> (Inside(s.acts[a]) <==> s.lock == LockedBy(a)))
    && (s.lock.LockedBy? ==> s.lock.owner in s.acts)
  }

  predicate Counting(s: State) {
    s.nested == |ActiveIds(s)|
  }

  // A mutator that has found nested to be 0 and has not released the lock yet.
  predicate Granted(act: Activity) {
    act.Mutate? && (act.mpc.MWrite? || act.mpc.MUnlock?)
  }

  // A pointer store happens only while no call is in progress.
  ghost predicate Quiet(s: State) {
    forall a :: a in s.acts && Granted(s.acts[a]) ==>
      s.nested == 0 && (s.acts[a].mpc.MWrite? ==> s.acts[a].mpc.k < 4)
  }

  // An unfinished activity begun by a handler has its call still inside that handler.
  ghost predicate Family(s: State) {
    forall a :: a in s.acts && s.acts[a].from.Within? ==>
      var c := s.acts[a].from.call;
      && c in s.acts && c < a && s.acts[c].Call?
      && (!Done(s.acts[a]) ==> Handling(s.acts[c]))
  }

  ghost predicate Obligations(s: State) {
    && (forall a :: a in s.acts && s.acts[a].Mutate? ==> s.acts[a].op.n != 0)
    && (forall a, n :: a in s.acts && Pending(s.acts[a], n) ==> n !in s.hooks)
    && (forall a, b, n :: a in s.acts && b in s.acts && a != b && Pending(s.acts[a], n) ==> !Pending(s.acts[b], n))
  }

  // The heap that the stores done so far by a writer have made of `base`.
  function Expected(s: State, base: Heap): Heap {
    if s.lock.LockedBy? && s.lock.owner in s.acts && Writing(s.acts[s.lock.owner])
    then Stores(base, s.acts[s.lock.owner].op, s.acts[s.lock.owner].mpc.k)
    else base
  }

  // `base` is the heap before the stores of the writer, if there is one.
  ghost predicate Shape(s: State, base: Heap) {
    RingHeap(base, s.hooks) && s.heap == Expected(s, base)
  }

  // A call has run a prefix of the hooks registered when it began, and its cursor stands
  // on the next one.
  predicate CallOk(q: seq<Node>, c: Activity)
    requires c.Call?
  {
    match c.cpc
    case Lock1 => c.ran == []
    case Incr => c.ran == []
    case Second(pos) => c.ran == [] && c.snap == q && pos == RingAt(q, 1)
    case Loop(pos, n) =>
      && c.snap == q && |c.ran| <= |q| && c.ran == q[..|c.ran|]
      && pos == RingAt(q, |c.ran| + 1) && (pos != 0 ==> n == RingAt(q, |c.ran| + 2))
    case Advance(n) =>
      c.snap == q && |c.ran| <= |q| && c.ran == q[..|c.ran|] && n == RingAt(q, |c.ran| + 1)
    case Lock2 => c.snap == q && c.ran == q
    case Decr => c.snap == q && c.ran == q
    case Unlock2 => c.ran == c.snap
    case CallDone => c.ran == c.snap
    case _ => c.ran == [] && c.snap == q
  }

  predicate NoRepeats(q: seq<Node>) {
    forall i, j :: 0 <= i < j < |q| ==> q[i] != q[j]
  }

  ghost predicate Calls(s: State) {
    forall a :: a in s.acts && s.acts[a].Call? ==> CallOk(s.hooks, s.acts[a]) && NoRepeats(s.acts[a].snap)
  }

  ghost predicate Inv(s: State, base: Heap) {
    Locking(s) && Counting(s) && Quiet(s) && Family(s) && Obligations(s) && Shape(s, base) && Calls(s)
  }

  lemma InitInv()
    ensures Inv(INIT, INIT.heap)
  {
    assert ActiveIds(INIT) == {};
  }

  lemma StepKeepsLocking(s: State, action: Action)
    requires Locking(s) && Enabled(s, action)
    ensures Locking(Next(s, action))
  {
  }

  // What a step leaves alone.
  lemma StepFrame(s: State, action: Action)
    requires Enabled(s, action)
    ensures var s', a := Next(s, action), action.a;
      && s'.acts.Keys == s.acts.Keys + {a}
      && (forall b :: b in s.acts && b != a ==> s'.acts[b] == s.acts[b])
      && (s'.nested != s.nested ==> action.Step? && s.acts[a].Call? && Inside(s.acts[a]))
      && (s'.heap != s.heap || s'.hooks != s.hooks ==> action.Step? && Writing(s.acts[a]))
  {
  }

  predicate IsActive(s: State, a: Id) {
    a in s.acts && Active(s.acts[a])
  }

  // nested follows the stepping activity in and out of its active phase.
  lemma StepNested(s: State, action: Action)
    requires Enabled(s, action) && (IsActive(s, action.a) ==> s.nested > 0)
    ensures var s', a := Next(s, action), action.a;
      s'.nested + (if IsActive(s, a) then 1 else 0) == s.nested + (if IsActive(s', a) then 1 else 0)
  {
  }

  lemma StepKeepsCounting(s: State, action: Action)
    requires Counting(s) && Enabled(s, action)
    ensures Counting(Next(s, action))
  {
    var s', a := Next(s, action), action.a;
    assert IsActive(s, a) <==> a in ActiveIds(s);
    StepFrame(s, action);
    StepNested(s, action);
    ActiveSets(s, s', a);
  }

  lemma WithOrWithout(all: set<Id>, rest: set<Id>, a: Id)
    requires a !in rest && forall b :: b != a ==> (b in all <==> b in rest)
    ensures |all| == |rest| + (if a in all then 1 else 0)
  {
    assert all == if a in all then rest + {a} else rest;
  }

  lemma ActiveSets(s: State, s': State, a: Id)
    requires s'.acts.Keys == s.acts.Keys + {a}
    requires forall b :: b in s.acts && b != a ==> s'.acts[b] == s.acts[b]
    ensures |ActiveIds(s')| + (if IsActive(s, a) then 1 else 0) == |ActiveIds(s)| + (if IsActive(s', a) then 1 else 0)
  {
    var rest := ActiveIds(s) - {a};
    forall b | b != a ensures b in rest <==> b in ActiveIds(s') {
      if b in s.acts { assert s'.acts[b] == s.acts[b]; }
    }
    WithOrWithout(ActiveIds(s), rest, a);
    WithOrWithout(ActiveIds(s'), rest, a);
  }

  // While a call is in progress nobody writes: the heap is a proper ring of s.hooks.
  lemma NoWriterDuringCall(s: State, base: Heap, a: Id)
    requires Inv(s, base) && a in s.acts && Active(s.acts[a])
    ensures s.nested > 0 && s.heap == base && RingHeap(s.heap, s.hooks)
  {
    assert a in ActiveIds(s);
  }

  lemma StepKeepsQuiet(s: State, action: Action)
    requires Locking(s) && Quiet(s) && Enabled(s, action)
    ensures Quiet(Next(s, action))
  {
    var s' := Next(s, action);
    StepFrame(s, action);
    forall b | b in s'.acts && Granted(s'.acts[b])
      ensures s'.nested == 0 && (s'.acts[b].mpc.MWrite? ==> s'.acts[b].mpc.k < 4)
    {
      if b != action.a {
        assert Granted(s.acts[b]) && Inside(s.acts[b]);
      } else {
        assert action.Step? && s.acts[b].Mutate?;
      }
    }
  }

  lemma StepKeepsFamily(s: State, action: Action)
    requires Family(s) && Enabled(s, action)
    ensures Family(Next(s, action))
  {
    var s', a := Next(s, action), action.a;
    StepFrame(s, action);
    StepFrom(s, action);
    forall b | b in s'.acts && s'.acts[b].from.Within?
      ensures var c := s'.acts[b].from.call;
        c in s'.acts && c < b && s'.acts[c].Call? && (!Done(s'.acts[b]) ==> Handling(s'.acts[c]))
    {
      var c := s'.acts[b].from.call;
      assert b in s.acts ==> s.acts[b].from == Within(c);
      if c == a && b in s.acts && !Done(s.acts[b]) {
        assert Busy(s, a);
      }
    }
  }

  // Nobody changes kind or origin, and what is done stays done.
  lemma StepFrom(s: State, action: Action)
    requires Enabled(s, action)
    ensures var s' := Next(s, action); forall b :: b in s.acts ==>
      && b in s'.acts && s'.acts[b].from == s.acts[b].from && (s'.acts[b].Call? <==> s.acts[b].Call?)
      && (Done(s.acts[b]) ==> Done(s'.acts[b]))
  {
    StepFrame(s, action);
    if action.a in s.acts { StepSelf(s, action.a); }
  }

  lemma StepSelf(s: State, a: Id)
    requires Enabled(s, Step(a))
    ensures var act, act' := s.acts[a], Next(s, Step(a)).acts[a];
      act'.from == act.from && (act'.Call? <==> act.Call?)
  {
  }

  lemma {:induction false} DeleteSubset(q: seq<Node>, n: Node, x: Node)
    ensures x in Delete(q, n) ==> x in q
  {
    if q != [] { DeleteSubset(q[1..], n, x); }
  }

  // Where pending registrations come from, and what becomes of the registered hooks.
  lemma StepPending(s: State, action: Action, b: Id, n: Node)
    requires Enabled(s, action) && b in Next(s, action).acts && Pending(Next(s, action).acts[b], n)
    ensures (b in s.acts && Pending(s.acts[b], n)) || (action.StartMutate? && action.a == b && action.op == SetHook(n))
  {
    StepFrame(s, action);
  }

  lemma StepHooks(s: State, action: Action)
    requires Enabled(s, action)
    ensures var s', a := Next(s, action), action.a;
      s'.hooks == s.hooks ||
      (&& action.Step? && s.acts[a].Mutate? && s'.hooks == Registered(s.hooks, s.acts[a].op)
       && (s.acts[a].op.SetHook? ==> Pending(s.acts[a], s.acts[a].op.n) && s'.acts[a].mpc == MUnlock))
  {
  }

  lemma PendingStaysOut(s: State, action: Action, b: Id, n: Node)
    requires Obligations(s) && Enabled(s, action) && Obeys(s, action)
    requires b in Next(s, action).acts && Pending(Next(s, action).acts[b], n)
    ensures n !in Next(s, action).hooks
  {
    StepPending(s, action, b, n);
    StepHooks(s, action);
    StepFrame(s, action);
    if b in s.acts && Next(s, action).hooks != s.hooks && s.acts[action.a].op.RmHook? {
      DeleteSubset(s.hooks, s.acts[action.a].op.n, n);
    }
  }

  lemma StepOp(s: State, action: Action, b: Id)
    requires Enabled(s, action) && b in Next(s, action).acts && Next(s, action).acts[b].Mutate?
    ensures var act := Next(s, action).acts[b];
      (b in s.acts && s.acts[b].Mutate? && s.acts[b].op == act.op) ||
      (action.StartMutate? && action.a == b && action.op == act.op)
  {
    StepFrame(s, action);
  }

  lemma StepKeepsObligations(s: State, action: Action)
    requires Obligations(s) && Enabled(s, action) && Obeys(s, action)
    ensures Obligations(Next(s, action))
  {
    var s' := Next(s, action);
    forall b | b in s'.acts && s'.acts[b].Mutate? ensures s'.acts[b].op.n != 0 {
      StepOp(s, action, b);
    }
    forall b, n | b in s'.acts && Pending(s'.acts[b], n) ensures n !in s'.hooks {
      PendingStaysOut(s, action, b, n);
    }
    forall b, c, n | b in s'.acts && c in s'.acts && b != c && Pending(s'.acts[b], n)
      ensures !Pending(s'.acts[c], n)
    {
      StepPending(s, action, b, n);
      if Pending(s'.acts[c], n) { StepPending(s, action, c, n); }
    }
  }

  // The base heap after a step: the last store of a writer makes its result the new base.
  function Base(s: State, base: Heap, action: Action): Heap {
    if action.Step? && action.a in s.acts && Writing(s.acts[action.a]) && s.acts[action.a].mpc.k >= 3
    then Stores(base, s.acts[action.a].op, 4)
    else base
  }

  // The next store of a writer; the last one completes the new ring.
  lemma WriterKeepsShape(s: State, base: Heap, a: Id)
    requires Inv(s, base) && Enabled(s, Step(a)) && Writing(s.acts[a])
    ensures Shape(Next(s, Step(a)), Base(s, base, Step(a)))
  {
    var op, k := s.acts[a].op, s.acts[a].mpc.k;
    assert Inside(s.acts[a]) && s.lock == LockedBy(a);
    assert Next(s, Step(a)).heap == Stores(base, op, k + 1);
    if k == 3 {
      if op.SetHook? {
        assert Pending(s.acts[a], op.n);
        SetExtendsRing(base, s.hooks, op.n);
      } else {
        RmShrinksRing(base, s.hooks, op.n);
      }
    }
  }

  // No other step touches the heap or brings a store forward.
  lemma OthersKeepShape(s: State, base: Heap, action: Action)
    requires Locking(s) && Shape(s, base) && Enabled(s, action)
    requires action.Step? ==> !Writing(s.acts[action.a])
    ensures Shape(Next(s, action), base)
  {
    var s', a := Next(s, action), action.a;
    StepFrame(s, action);
    if s.lock.LockedBy? && s.lock.owner != a {
      assert a in s.acts ==> !Inside(s.acts[a]);
      assert s'.lock == s.lock;
    }
  }

  lemma StepKeepsShape(s: State, base: Heap, action: Action)
    requires Inv(s, base) && Enabled(s, action)
    ensures Shape(Next(s, action), Base(s, base, action))
  {
    if action.Step? && Writing(s.acts[action.a]) {
      WriterKeepsShape(s, base, action.a);
    } else {
      OthersKeepShape(s, base, action);
    }
  }

  // One move of the cursor of a call along an intact ring.
  lemma CursorStepOk(h: Heap, q: seq<Node>, c: Activity)
    requires RingHeap(h, q) && c.Call? && CallOk(q, c)
    ensures c.cpc.First? ==> CallOk(q, c.(cpc := Second(NextOf(h, 0))))
    ensures c.cpc.Second? ==> CallOk(q, c.(cpc := Loop(c.cpc.pos, NextOf(h, c.cpc.pos))))
    ensures c.cpc.Advance? ==> CallOk(q, c.(cpc := Loop(c.cpc.n, NextOf(h, c.cpc.n))))
  {
    var k := |c.ran|;
    assert NextOf(h, RingAt(q, 0)) == RingAt(q, 1);
    if c.cpc.Second? && q != [] { assert NextOf(h, RingAt(q, 1)) == RingAt(q, 2); }
    if c.cpc.Advance? && k + 1 <= |q| { assert NextOf(h, RingAt(q, k + 1)) == RingAt(q, k + 2); }
  }

  // The loop test: a handler is run, or all have been.
  lemma LoopStepOk(h: Heap, q: seq<Node>, c: Activity)
    requires RingHeap(h, q) && c.Call? && c.cpc.Loop? && CallOk(q, c)
    ensures c.cpc.pos == 0 ==> CallOk(q, c.(cpc := Lock2))
    ensures c.cpc.pos != 0 ==> CallOk(q, c.(cpc := Advance(c.cpc.n), ran := c.ran + [c.cpc.pos]))
  {
    var k := |c.ran|;
    assert k < |q| ==> RingAt(q, 0) != RingAt(q, k + 1) && q[..k + 1] == q[..k] + [q[k]];
  }

  lemma RingNoRepeats(h: Heap, q: seq<Node>)
    requires RingHeap(h, q)
    ensures NoRepeats(q)
  {
    forall i, j | 0 <= i < j < |q| ensures q[i] != q[j] {
      assert RingAt(q, i + 1) != RingAt(q, j + 1);
    }
  }

  lemma CallStepOk(s: State, base: Heap, a: Id)
    requires Inv(s, base) && Enabled(s, Step(a)) && s.acts[a].Call?
    ensures CallOk(s.hooks, Next(s, Step(a)).acts[a])
    ensures NoRepeats(Next(s, Step(a)).acts[a].snap)
  {
    RingNoRepeats(base, s.hooks);
    var c, q := s.acts[a], s.hooks;
    assert CallOk(q, c);
    if Active(c) {
      NoWriterDuringCall(s, base, a);
      CursorStepOk(s.heap, q, c);
      if c.cpc.Loop? { LoopStepOk(s.heap, q, c); }
      if c.cpc.Check? {
        assert NextOf(s.heap, RingAt(q, 0)) == RingAt(q, 1);
        assert q != [] ==> RingAt(q, 0) != RingAt(q, 1);
      }
    }
  }

  lemma StepKeepsCalls(s: State, base: Heap, action: Action)
    requires Inv(s, base) && Enabled(s, action)
    ensures Calls(Next(s, action))
  {
    var s' := Next(s, action);
    StepFrame(s, action);
    forall b | b in s'.acts && s'.acts[b].Call?
      ensures CallOk(s'.hooks, s'.acts[b]) && NoRepeats(s'.acts[b].snap)
    {
      if b != action.a {
        assert CallOk(s.hooks, s.acts[b]);
        if Active(s.acts[b]) { NoWriterDuringCall(s, base, b); }
      } else if action.Step? {
        CallStepOk(s, base, b);
        StepHooks(s, action);
      }
    }
  }

  lemma StepKeepsInv(s: State, base: Heap, action: Action)
    requires Inv(s, base) && Enabled(s, action) && Obeys(s, action)
    ensures Inv(Next(s, action), Base(s, base, action))
  {
    StepKeepsLocking(s, action);
    StepKeepsCounting(s, action);
    StepKeepsQuiet(s, action);
    StepKeepsFamily(s, action);
    StepKeepsObligations(s, action);
    StepKeepsShape(s, base, action);
    StepKeepsCalls(s, base, action);
  }

  // ----- Whole runs ---------------------------------------------------------------------------------

  ghost predicate IsRun(s: State, actions: seq<Action>)
    decreases |actions|
  {
    actions == [] ||
    (Enabled(s, actions[0]) && Obeys(s, actions[0]) && IsRun(Next(s, actions[0]), actions[1..]))
  }

  ghost function Final(s: State, actions: seq<Action>): State
    requires IsRun(s, actions)
    decreases |actions|
  {
    if actions == [] then s else Final(Next(s, actions[0]), actions[1..])
  }

  lemma {:induction false} RunKeepsInv(s: State, base: Heap, actions: seq<Action>) returns (base': Heap)
    requires Inv(s, base) && IsRun(s, actions)
    ensures Inv(Final(s, actions), base')
    decreases |actions|
  {
    if actions == [] {
      base' := base;
    } else {
      StepKeepsInv(s, base, actions[0]);
      base' := RunKeepsInv(Next(s, actions[0]), Base(s, base, actions[0]), actions[1..]);
    }
  }

  // In every reachable state: nested is the number of calls in progress, every completed
  // call ran exactly the hooks registered when it incremented nested, once each and in
  // registration order; and the heap is the ring of the registered hooks except between the
  // stores of a writer, which excludes every call in progress.
  lemma CallsRunTheirSnapshot(actions: seq<Action>)
    requires IsRun(INIT, actions)
    ensures var f := Final(INIT, actions);
      && f.nested == |ActiveIds(f)|
      && (forall a :: a in f.acts && f.acts[a].Call? && f.acts[a].cpc.CallDone? ==>
            f.acts[a].ran == f.acts[a].snap && NoRepeats(f.acts[a].ran))
      && NoRepeats(f.hooks)
      && (f.nested > 0 ==> RingHeap(f.heap, f.hooks))
      && ((forall a :: a in f.acts ==> !Writing(f.acts[a])) ==> RingHeap(f.heap, f.hooks))
  {
    InitInv();
    var base := RunKeepsInv(INIT, INIT.heap, actions);
    var f := Final(INIT, actions);
    forall a | a in f.acts && f.acts[a].Call? && f.acts[a].cpc.CallDone?
      ensures f.acts[a].ran == f.acts[a].snap && NoRepeats(f.acts[a].ran)
    {
      assert CallOk(f.hooks, f.acts[a]) && NoRepeats(f.acts[a].snap);
    }
    RingNoRepeats(base, f.hooks);
    if f.nested > 0 {
      assert ActiveIds(f) != {};
      var a :| a in ActiveIds(f);
      NoWriterDuringCall(f, base, a);
    }
  }

  // A step from a reachable state changes a pointer or the registered hooks only when no
  // call is in progress. So a sethook or rmhook issued from inside a handler cannot get
  // past its spin loop before that call has ended.
  lemma ListChangesOnlyWhenQuiet(actions: seq<Action>, action: Action)
    requires IsRun(INIT, actions) && Enabled(Final(INIT, actions), action)
    ensures var f := Final(INIT, actions); var f' := Next(f, action);
      f'.heap != f.heap || f'.hooks != f.hooks ==> f.nested == 0 && ActiveIds(f) == {}
  {
    InitInv();
    var base := RunKeepsInv(INIT, INIT.heap, actions);
    StepFrame(Final(INIT, actions), action);
  }

  // ----- When calls and mutations take effect --------------------------------------------------------

  // The call has incremented nested, the mutator has done its last store.
  predicate Effective(act: Activity) {
    match act
    case Call(pc, _, _, _) => !pc.Lock1? && !pc.Incr?
    case Mutate(_, pc, _) => pc.MUnlock? || pc.MDone?
  }

  // What a sethook and an rmhook are for: n is appended; n is gone and the others keep
  // their order.
  ghost predicate TakesEffect(op: Op, q: seq<Node>, r: seq<Node>) {
    match op
    case SetHook(n) => r == q + [n]
    case RmHook(n) =>
      && n !in r
      && (n !in q ==> r == q)
      && (n in q ==> exists i :: 0 <= i < |q| && q[i] == n && r == q[..i] + q[i + 1..])
  }

  lemma RegisteredTakesEffect(q: seq<Node>, op: Op)
    requires NoRepeats(q)
    ensures TakesEffect(op, q, Registered(q, op))
  {
    if op.RmHook? {
      if op.n in q {
        var k :| 0 <= k < |q| && q[k] == op.n;
        DeleteIs(q, k);
      } else {
        DeleteAbsent(q, op.n);
      }
    }
  }

  // An activity takes effect in a step of its own: a call with the increment of nested and
  // the hooks registered then, a mutator with the change of the registered hooks. Nothing
  // else changes them, and no activity ends before.
  lemma StepTakesEffect(s: State, base: Heap, action: Action, a: Id)
    requires Inv(s, base) && Enabled(s, action) && a in Next(s, action).acts
    requires Effective(Next(s, action).acts[a]) && !(a in s.acts && Effective(s.acts[a]))
    ensures action == Step(a) && a in s.acts
    ensures var s' := Next(s, action); var act := s'.acts[a];
      && (act.Call? ==> s.acts[a].Call? && s'.nested == s.nested + 1 && act.snap == s.hooks == s'.hooks)
      && (act.Mutate? ==> s.acts[a].Mutate? && act.op == s.acts[a].op && TakesEffect(act.op, s.hooks, s'.hooks))
  {
    StepFrame(s, action);
    RingNoRepeats(base, s.hooks);
    if action.Step? && a in s.acts && s.acts[a].Mutate? {
      RegisteredTakesEffect(s.hooks, s.acts[a].op);
    }
  }

  // Once an activity has taken effect, its snapshot and its operation stay.
  lemma StaysEffective(s: State, action: Action, a: Id)
    requires Enabled(s, action) && a in s.acts && Effective(s.acts[a])
    ensures var s' := Next(s, action);
      && a in s'.acts && Effective(s'.acts[a])
      && (s.acts[a].Call? ==> s'.acts[a].Call? && s'.acts[a].snap == s.acts[a].snap)
      && (s.acts[a].Mutate? ==> s'.acts[a].Mutate? && s'.acts[a].op == s.acts[a].op)
  {
    StepFrame(s, action);
  }

  lemma DoneIsEffective(act: Activity)
    requires Done(act)
    ensures Effective(act)
  {
  }

  lemma {:induction false} RunSplit(s: State, actions: seq<Action>)
    requires IsRun(s, actions) && actions != []
    ensures var init, last := actions[..|actions| - 1], actions[|actions| - 1];
      && IsRun(s, init) && Enabled(Final(s, init), last) && Obeys(Final(s, init), last)
      && Final(s, actions) == Next(Final(s, init), last)
    decreases |actions|
  {
    if |actions| > 1 {
      var rest := actions[1..];
      RunSplit(Next(s, actions[0]), rest);
      assert actions[..|actions| - 1][1..] == rest[..|rest| - 1];
    }
  }

  // actions[i] is the step in which activity a of the final state took effect.
  ghost predicate EffectAt(actions: seq<Action>, a: Id, i: nat)
    requires IsRun(INIT, actions) && a in Final(INIT, actions).acts
  {
    && i < |actions| && actions[i] == Step(a) && IsRun(INIT, actions[..i]) && IsRun(INIT, actions[..i + 1])
    && var act := Final(INIT, actions).acts[a];
       var before, after := Final(INIT, actions[..i]), Final(INIT, actions[..i + 1]);
       && (act.Call? ==> after.nested == before.nested + 1 && act.snap == before.hooks)
       && (act.Mutate? ==> TakesEffect(act.op, before.hooks, after.hooks))
  }

  lemma {:induction false} TookEffect(actions: seq<Action>, a: Id) returns (i: nat)
    requires IsRun(INIT, actions) && a in Final(INIT, actions).acts && Effective(Final(INIT, actions).acts[a])
    ensures EffectAt(actions, a, i)
    decreases |actions|
  {
    var k := |actions| - 1;
    var init := actions[..k];
    RunSplit(INIT, actions);
    InitInv();
    var base := RunKeepsInv(INIT, INIT.heap, init);
    var s := Final(INIT, init);
    if a in s.acts && Effective(s.acts[a]) {
      i := TookEffect(init, a);
      StaysEffective(s, actions[k], a);
      assert init[..i] == actions[..i] && init[..i + 1] == actions[..i + 1];
    } else {
      StepTakesEffect(s, base, actions[k], a);
      i := k;
      assert actions[..k + 1] == actions;
    }
  }

  // Every completed call has, at one moment between its start and its end, incremented nested
  // and then run exactly the hooks registered at that moment, in their order.
  lemma CompletedCall(actions: seq<Action>, c: Id) returns (i: nat)
    requires IsRun(INIT, actions) && c in Final(INIT, actions).acts
    requires Final(INIT, actions).acts[c].Call? && Done(Final(INIT, actions).acts[c])
    ensures EffectAt(actions, c, i) && Final(INIT, actions).acts[c].ran == Final(INIT, actions[..i]).hooks
  {
    i := TookEffect(actions, c);
    CallsRunTheirSnapshot(actions);
  }

  // Every completed sethook and rmhook has done its work in one of its steps.
  lemma CompletedMutation(actions: seq<Action>, a: Id) returns (i: nat)
    requires IsRun(INIT, actions) && a in Final(INIT, actions).acts
    requires Final(INIT, actions).acts[a].Mutate? && Done(Final(INIT, actions).acts[a])
    ensures EffectAt(actions, a, i)
  {
    i := TookEffect(actions, a);
  }

  // ----- What that means for later calls ---------------------------------------------------------------

  // A sethook or rmhook that has begun and not taken effect.
  predicate Awaited(act: Activity, op: Op) {
    act.Mutate? && act.op == op && !Effective(act)
  }

  // op is neither under way in s nor begun in `actions`.
  ghost predicate Absent(s: State, actions: seq<Action>, op: Op) {
    && (forall a :: a in s.acts ==> !Awaited(s.acts[a], op))
    && (forall i :: 0 <= i < |actions| && actions[i].StartMutate? ==> actions[i].op != op)
  }

  lemma StepKeepsAbsent(s: State, actions: seq<Action>, op: Op)
    requires actions != [] && Enabled(s, actions[0]) && Absent(s, actions, op)
    ensures Absent(Next(s, actions[0]), actions[1..], op)
  {
    var s' := Next(s, actions[0]);
    StepFrame(s, actions[0]);
    StepFrom(s, actions[0]);
    forall i | 0 <= i < |actions[1..]| && actions[1..][i].StartMutate? ensures actions[1..][i].op != op {
      assert actions[1..][i] == actions[i + 1];
    }
    forall a | a in s'.acts ensures !Awaited(s'.acts[a], op) {
      if a in s.acts && s.acts[a].Mutate? { StepKeepsOp(s, actions[0], a); }
    }
  }

  lemma StepKeepsOp(s: State, action: Action, a: Id)
    requires Enabled(s, action) && a in s.acts && s.acts[a].Mutate?
    ensures var act := Next(s, action).acts[a];
      act.Mutate? && act.op == s.acts[a].op && (Effective(s.acts[a]) ==> Effective(act))
  {
    StepFrame(s, action);
  }

  lemma {:induction false} DeleteKeeps(q: seq<Node>, n: Node, x: Node)
    requires x in q && x != n
    ensures x in Delete(q, n)
  {
    if q[0] != n && q[0] != x { DeleteKeeps(q[1..], n, x); }
  }

  // Without a sethook(n) an unregistered hook stays so; without an rmhook(n) a registered one.
  lemma StepKeepsMember(s: State, action: Action, n: Node)
    requires Enabled(s, action)
    requires forall a :: a in s.acts ==> !Awaited(s.acts[a], if n in s.hooks then RmHook(n) else SetHook(n))
    ensures n in Next(s, action).hooks <==> n in s.hooks
  {
    StepHooks(s, action);
    if Next(s, action).hooks != s.hooks {
      var op := s.acts[action.a].op;
      assert !Effective(s.acts[action.a]);
      if op.RmHook? {
        DeleteSubset(s.hooks, op.n, n);
        if n in s.hooks { DeleteKeeps(s.hooks, op.n, n); }
      }
    }
  }

  // The calls that take effect during the run have n in their snapshot exactly if it is
  // registered all along.
  lemma {:induction false} LaterSnapshots(s: State, base: Heap, actions: seq<Action>, n: Node)
    requires Inv(s, base) && IsRun(s, actions)
    requires Absent(s, actions, if n in s.hooks then RmHook(n) else SetHook(n))
    ensures var f := Final(s, actions);
      && (n in f.hooks <==> n in s.hooks)
      && forall c :: c in f.acts && f.acts[c].Call? && Effective(f.acts[c]) && !(c in s.acts && Effective(s.acts[c])) ==>
           (n in f.acts[c].snap <==> n in s.hooks)
    decreases |actions|
  {
    if actions != [] {
      var s', f := Next(s, actions[0]), Final(s, actions);
      var base' := Base(s, base, actions[0]);
      StepKeepsInv(s, base, actions[0]);
      StepKeepsMember(s, actions[0], n);
      StepKeepsAbsent(s, actions, if n in s.hooks then RmHook(n) else SetHook(n));
      LaterSnapshots(s', base', actions[1..], n);
      forall c | c in f.acts && f.acts[c].Call? && Effective(f.acts[c]) && !(c in s.acts && Effective(s.acts[c]))
        ensures n in f.acts[c].snap <==> n in s.hooks
      {
        if c in s'.acts && Effective(s'.acts[c]) {
          StepTakesEffect(s, base, actions[0], c);
          EffectiveCallStays(s', actions[1..], c);
        }
      }
    }
  }

  lemma {:induction false} EffectiveCallStays(s: State, actions: seq<Action>, c: Id)
    requires IsRun(s, actions) && c in s.acts && Effective(s.acts[c])
    ensures c in Final(s, actions).acts && (Final(s, actions).acts[c].Call? ==> s.acts[c].Call?)
    ensures s.acts[c].Call? ==> Final(s, actions).acts[c].Call? && Final(s, actions).acts[c].snap == s.acts[c].snap
    decreases |actions|
  {
    if actions != [] {
      StaysEffective(s, actions[0], c);
      EffectiveCallStays(Next(s, actions[0]), actions[1..], c);
    }
  }

  lemma RanWithinSnap(q: seq<Node>, c: Activity, n: Node)
    requires c.Call? && CallOk(q, c) && n in c.ran
    ensures n in c.snap
  {
  }

  // A call that has not incremented nested in s.
  predicate Later(s: State, c: Id) {
    c in s.acts ==> !Effective(s.acts[c])
  }

  // What the later calls run, as long as n is neither registered nor removed.
  lemma LaterCalls(s: State, base: Heap, actions: seq<Action>, n: Node)
    requires Inv(s, base) && IsRun(s, actions)
    requires Absent(s, actions, if n in s.hooks then RmHook(n) else SetHook(n))
    ensures var f := Final(s, actions);
      forall c :: c in f.acts && f.acts[c].Call? && Later(s, c) ==>
        && (n in f.acts[c].ran ==> n in s.hooks)
        && (Done(f.acts[c]) && n in s.hooks ==> n in f.acts[c].ran)
  {
    var f := Final(s, actions);
    LaterSnapshots(s, base, actions, n);
    var base' := RunKeepsInv(s, base, actions);
    forall c | c in f.acts && f.acts[c].Call? && Later(s, c)
      ensures n in f.acts[c].ran ==> n in s.hooks
      ensures Done(f.acts[c]) && n in s.hooks ==> n in f.acts[c].ran
    {
      assert CallOk(f.hooks, f.acts[c]);
      if n in f.acts[c].ran { RanWithinSnap(f.hooks, f.acts[c], n); }
    }
  }

  // The step in which a sethook or rmhook takes effect.
  ghost predicate TakesEffectIn(s: State, a: Id, op: Op) {
    && Enabled(s, Step(a)) && Awaited(s.acts[a], op)
    && a in Next(s, Step(a)).acts && Effective(Next(s, Step(a)).acts[a])
  }

  // Once an rmhook(n) has taken effect, and as long as no sethook(n) is under way or begins,
  // no call that increments nested runs n.
  lemma RemovedHookIsNotRun(before: seq<Action>, a: Id, after: seq<Action>, n: Node)
    requires IsRun(INIT, before) && TakesEffectIn(Final(INIT, before), a, RmHook(n))
    requires var s := Next(Final(INIT, before), Step(a)); IsRun(s, after) && Absent(s, after, SetHook(n))
    ensures var s := Next(Final(INIT, before), Step(a)); var f := Final(s, after);
      forall c :: c in f.acts && f.acts[c].Call? && Later(s, c) ==> n !in f.acts[c].ran
  {
    var s, base := AfterEffect(before, a);
    LaterCalls(s, base, after, n);
  }

  // Once a sethook(n) has taken effect, and as long as no rmhook(n) is under way or begins,
  // every call that increments nested and completes runs n.
  lemma AddedHookIsRun(before: seq<Action>, a: Id, after: seq<Action>, n: Node)
    requires IsRun(INIT, before) && TakesEffectIn(Final(INIT, before), a, SetHook(n))
    requires var s := Next(Final(INIT, before), Step(a)); IsRun(s, after) && Absent(s, after, RmHook(n))
    ensures var s := Next(Final(INIT, before), Step(a)); var f := Final(s, after);
      forall c :: c in f.acts && f.acts[c].Call? && Later(s, c) && Done(f.acts[c]) ==> n in f.acts[c].ran
  {
    var s, base := AfterEffect(before, a);
    LaterCalls(s, base, after, n);
  }

  lemma AfterEffect(before: seq<Action>, a: Id) returns (s': State, base': Heap)
    requires IsRun(INIT, before) && Enabled(Final(INIT, before), Step(a)) && Final(INIT, before).acts[a].Mutate?
    requires !Effective(Final(INIT, before).acts[a]) && Effective(Next(Final(INIT, before), Step(a)).acts[a])
    ensures s' == Next(Final(INIT, before), Step(a)) && Inv(s', base')
    ensures TakesEffect(Final(INIT, before).acts[a].op, Final(INIT, before).hooks, s'.hooks)
  {
    var s := Final(INIT, before);
    InitInv();
    var base := RunKeepsInv(INIT, INIT.heap, before);
    StepKeepsInv(s, base, Step(a));
    StepTakesEffect(s, base, Step(a), a);
    s', base' := Next(s, Step(a)), Base(s, base, Step(a));
  }

  // ----- Which activities can be completed ----------------------------------------------------------

  predicate AllDone(s: State) {
    forall a :: a in s.acts ==> Done(s.acts[a])
  }

  ghost predicate OnlySteps(actions: seq<Action>) {
    forall i :: 0 <= i < |actions| ==> actions[i].Step?
  }

  // The activities begun so far can all run to their end, without any new one.
  ghost predicate CanFinish(s: State) {
    exists actions :: IsRun(s, actions) && OnlySteps(actions) && AllDone(Final(s, actions))
  }

  // A handler is waiting for a sethook or rmhook of its own. (By Family the call that an
  // unfinished activity was begun in is unfinished too, and so are the calls above that.)
  predicate HandlerMutates(s: State) {
    exists a :: a in s.acts && s.acts[a].Mutate? && s.acts[a].from.Within? && !Done(s.acts[a])
  }

  // Such a mutator finds nested different from 0 in every state to come, because its call
  // cannot leave the handler before it.
  lemma MutatorStays(s: State, base: Heap, action: Action, a: Id)
    requires Inv(s, base) && Enabled(s, action)
    requires a in s.acts && s.acts[a].Mutate? && s.acts[a].from.Within? && !Done(s.acts[a])
    ensures var s' := Next(s, action);
      a in s'.acts && s'.acts[a].Mutate? && s'.acts[a].from.Within? && !Done(s'.acts[a])
  {
    NotGranted(s, base, a);
    StepFrame(s, action);
    StepFrom(s, action);
    if action == Step(a) { MutatorSpins(s, a); }
  }

  lemma NotGranted(s: State, base: Heap, a: Id)
    requires Inv(s, base) && a in s.acts && s.acts[a].Mutate? && s.acts[a].from.Within? && !Done(s.acts[a])
    ensures s.nested > 0 && !Granted(s.acts[a])
  {
    var c := s.acts[a].from.call;
    assert Active(s.acts[c]);
    NoWriterDuringCall(s, base, c);
  }

  lemma MutatorSpins(s: State, a: Id)
    requires Enabled(s, Step(a)) && s.acts[a].Mutate? && s.nested > 0 && !Granted(s.acts[a])
    ensures var act := Next(s, Step(a)).acts[a]; act.Mutate? && !Granted(act) && !Done(act)
  {
  }

  // A sethook or rmhook issued by a handler never returns, whatever else is done.
  lemma {:induction false} HandlerMutatesForever(s: State, base: Heap, actions: seq<Action>, a: Id)
    requires Inv(s, base) && IsRun(s, actions)
    requires a in s.acts && s.acts[a].Mutate? && s.acts[a].from.Within? && !Done(s.acts[a])
    ensures a in Final(s, actions).acts && !Done(Final(s, actions).acts[a])
    decreases |actions|
  {
    if actions != [] {
      MutatorStays(s, base, actions[0], a);
      StepKeepsInv(s, base, actions[0]);
      HandlerMutatesForever(Next(s, actions[0]), Base(s, base, actions[0]), actions[1..], a);
    }
  }

  lemma CanFinishAfter(s: State, a: Id)
    requires Enabled(s, Step(a)) && CanFinish(Next(s, Step(a)))
    ensures CanFinish(s)
  {
    var s' := Next(s, Step(a));
    var rest :| IsRun(s', rest) && OnlySteps(rest) && AllDone(Final(s', rest));
    var actions := [Step(a)] + rest;
    assert actions[0] == Step(a) && actions[1..] == rest;
    assert IsRun(s, actions) && OnlySteps(actions) && AllDone(Final(s, actions));
  }

  function Undone(s: State): set<Id> {
    set a | a in s.acts && !Done(s.acts[a])
  }

  function UndoneCalls(s: State): set<Id> {
    set a | a in s.acts && s.acts[a].Call? && !Done(s.acts[a])
  }

  // Steps that an activity still takes when nobody gets in its way.
  function Left(s: State, act: Activity): int {
    match act
    case Call(pc, ran, _, _) =>
      var more := 2 * (|s.hooks| - |ran|);
      (match pc
       case Lock1 => more + 10
       case Incr => more + 9
       case Unlock1 => more + 8
       case Check => more + 7
       case First => more + 6
       case Second(_) => more + 5
       case Loop(_, _) => more + 4
       case Advance(_) => more + 5
       case Lock2 => 3
       case Decr => 2
       case Unlock2 => 1
       case CallDone => 0)
    case Mutate(_, pc, _) =>
      (match pc
       case MRetry => 9
       case MLock => 8
       case MTest => 7
       case MWrite(k) => 6 - k
       case MUnlock => 1
       case MDone => 0)
  }

  // Nobody else holds the lock, no handler of this activity is waiting for another one, and
  // a writer does not have to wait for a call to end.
  predicate Drivable(s: State, a: Id) {
    && a in s.acts && !Done(s.acts[a])
    && (s.lock == Unlocked || s.lock == LockedBy(a))
    && !Busy(s, a)
    && (s.acts[a].Mutate? ==> s.nested == 0 && s.acts[a].mpc != MRetry)
  }

  lemma LeftPositive(s: State, base: Heap, a: Id)
    requires Inv(s, base) && Drivable(s, a)
    ensures Left(s, s.acts[a]) > 0
  {
    assert s.acts[a].Call? ==> CallOk(s.hooks, s.acts[a]);
  }

  lemma DriveCall(s: State, a: Id)
    requires a in s.acts && s.acts[a].Call? && Enabled(s, Step(a)) && CallOk(s.hooks, s.acts[a])
    requires Inside(s.acts[a]) <==> s.lock == LockedBy(a)
    ensures var s' := Next(s, Step(a)); var act := s'.acts[a];
      && act.Call? && s'.hooks == s.hooks && Left(s', act) < Left(s, s.acts[a])
      && s'.lock == (if Inside(act) then LockedBy(a) else if Inside(s.acts[a]) then Unlocked else s.lock)
  {
  }

  lemma DriveMutate(s: State, a: Id)
    requires Drivable(s, a) && s.acts[a].Mutate? && Enabled(s, Step(a))
    requires Writing(s.acts[a]) ==> s.acts[a].mpc.k < 4
    requires Inside(s.acts[a]) <==> s.lock == LockedBy(a)
    ensures var s' := Next(s, Step(a)); var act := s'.acts[a];
      && act.Mutate? && act.mpc != MRetry && s'.nested == 0 && Left(s', act) < Left(s, s.acts[a])
      && s'.lock == (if Inside(act) then LockedBy(a) else Unlocked)
  {
  }

  // One step of a drivable activity: it gets nearer to its end and nobody else moves.
  lemma DriveStep(s: State, base: Heap, a: Id)
    requires Inv(s, base) && Drivable(s, a)
    ensures Enabled(s, Step(a))
    ensures var s' := Next(s, Step(a));
      if Done(s'.acts[a]) then s'.lock == Unlocked && Undone(s') == Undone(s) - {a}
      else Drivable(s', a) && Undone(s') == Undone(s) && Left(s', s'.acts[a]) < Left(s, s.acts[a])
  {
    var s' := Next(s, Step(a));
    assert Inside(s.acts[a]) <==> s.lock == LockedBy(a);
    if s.acts[a].Call? {
      assert CallOk(s.hooks, s.acts[a]);
      DriveCall(s, a);
    } else {
      assert Granted(s.acts[a]) ==> s.nested == 0;
      DriveMutate(s, a);
    }
    StepFrame(s, Step(a));
    DriveOthers(s, s', a);
    StaysFree(s, base, a);
  }

  // No handler of a begins to wait through a step of a itself.
  lemma StaysFree(s: State, base: Heap, a: Id)
    requires Inv(s, base) && Enabled(s, Step(a)) && !Busy(s, a)
    ensures !Busy(Next(s, Step(a)), a)
  {
    var s' := Next(s, Step(a));
    StepFrame(s, Step(a));
    StepFrom(s, Step(a));
    forall b | b in s'.acts && s'.acts[b].from == Within(a) ensures Done(s'.acts[b]) {
      assert s.acts[b].from == Within(a) && a < b;
    }
  }

  lemma DriveOthers(s: State, s': State, a: Id)
    requires a in s.acts && !Done(s.acts[a]) && s'.acts.Keys == s.acts.Keys
    requires forall b :: b in s.acts && b != a ==> s'.acts[b] == s.acts[b]
    ensures Undone(s') == if Done(s'.acts[a]) then Undone(s) - {a} else Undone(s)
  {
  }

  lemma StepKeepsHandlers(s: State, a: Id)
    requires Enabled(s, Step(a)) && !HandlerMutates(s)
    ensures !HandlerMutates(Next(s, Step(a)))
  {
    StepFrame(s, Step(a));
    StepFrom(s, Step(a));
  }

  lemma {:induction false} Drive(s: State, base: Heap, a: Id)
    requires Inv(s, base) && Drivable(s, a) && !HandlerMutates(s)
    ensures CanFinish(s)
    decreases |Undone(s)|, 0, Left(s, s.acts[a])
  {
    var s' := Next(s, Step(a));
    LeftPositive(s, base, a);
    DriveStep(s, base, a);
    StepKeepsInv(s, base, Step(a));
    StepKeepsHandlers(s, a);
    if Done(s'.acts[a]) {
      assert a in Undone(s);
      FinishUnlocked(s', Base(s, base, Step(a)));
    } else {
      Drive(s', Base(s, base, Step(a)), a);
    }
    CanFinishAfter(s, a);
  }

  lemma {:induction false} Highest(ids: set<Id>) returns (m: Id)
    requires ids != {}
    ensures m in ids && forall x :: x in ids ==> x <= m
    decreases |ids|
  {
    m :| m in ids;
    var rest := ids - {m};
    if rest != {} {
      var k := Highest(rest);
      forall x | x in ids ensures x <= if m < k then k else m {
        assert x == m || x in rest;
      }
      m := if m < k then k else m;
    }
  }

  // The youngest unfinished call is not waiting for anything its handler has begun.
  lemma YoungestIsFree(s: State, base: Heap, a: Id)
    requires Inv(s, base) && !HandlerMutates(s)
    requires a in UndoneCalls(s) && forall x :: x in UndoneCalls(s) ==> x <= a
    ensures !Busy(s, a)
  {
    forall b | b in s.acts && s.acts[b].from == Within(a) ensures Done(s.acts[b]) {
      assert a < b && b !in UndoneCalls(s);
    }
  }

  // Calls go first, the youngest of them first; without any, nested is 0 and no mutator has
  // to wait.
  lemma {:induction false} FinishUnlocked(s: State, base: Heap)
    requires Inv(s, base) && s.lock == Unlocked && !HandlerMutates(s)
    ensures CanFinish(s)
    decreases |Undone(s)|, 1, 0
  {
    if UndoneCalls(s) != {} {
      var a := Highest(UndoneCalls(s));
      YoungestIsFree(s, base, a);
      Drive(s, base, a);
    } else if Undone(s) != {} {
      var a :| a in Undone(s);
      MutatorIsFree(s, base, a);
      Drive(s, base, a);
    } else {
      forall a | a in s.acts ensures Done(s.acts[a]) { assert a !in Undone(s); }
      assert IsRun(s, []) && OnlySteps([]) && AllDone(Final(s, []));
    }
  }

  lemma MutatorIsFree(s: State, base: Heap, a: Id)
    requires Inv(s, base) && s.lock == Unlocked && UndoneCalls(s) == {} && a in Undone(s)
    ensures Drivable(s, a)
  {
    assert forall b :: b in ActiveIds(s) ==> b in UndoneCalls(s);
    assert ActiveIds(s) == {};
    assert a !in UndoneCalls(s) && !Inside(s.acts[a]);
    assert forall b :: b in s.acts && s.acts[b].from == Within(a) ==> s.acts[a].Call?;
  }

  // A writer that found a call in progress gives the lock back.
  lemma WriterBacksOff(s: State, base: Heap, a: Id)
    requires Inv(s, base) && s.lock == LockedBy(a) && s.acts[a].Mutate? && !HandlerMutates(s)
    requires s.nested > 0 || s.acts[a].mpc == MRetry
    ensures CanFinish(s)
  {
    assert Inside(s.acts[a]) && !Granted(s.acts[a]);
    var s1, base1 := Next(s, Step(a)), Base(s, base, Step(a));
    StepKeepsInv(s, base, Step(a));
    StepKeepsHandlers(s, a);
    if s1.lock == Unlocked {
      FinishUnlocked(s1, base1);
    } else {
      StepKeepsInv(s1, base1, Step(a));
      StepKeepsHandlers(s1, a);
      FinishUnlocked(Next(s1, Step(a)), Base(s1, base1, Step(a)));
      CanFinishAfter(s1, a);
    }
    CanFinishAfter(s, a);
  }

  // An activity that holds the lock is in no handler.
  lemma OwnerIsFree(s: State, base: Heap, a: Id)
    requires Inv(s, base) && s.lock == LockedBy(a)
    ensures a in s.acts && Inside(s.acts[a]) && !Busy(s, a)
  {
    assert !Handling(s.acts[a]);
  }

  lemma FinishAny(s: State, base: Heap)
    requires Inv(s, base) && !HandlerMutates(s)
    ensures CanFinish(s)
  {
    if s.lock == Unlocked {
      FinishUnlocked(s, base);
    } else {
      var a := s.lock.owner;
      OwnerIsFree(s, base, a);
      if s.acts[a].Mutate? && (s.nested > 0 || s.acts[a].mpc == MRetry) {
        WriterBacksOff(s, base, a);
      } else {
        Drive(s, base, a);
      }
    }
  }

  // From a reachable state, however calls and mutations have been interleaved and nested,
  // there is a schedule on which every one of them ends if and only if no handler has
  // issued a sethook or rmhook that has not returned yet.
  lemma CanFinishIff(actions: seq<Action>)
    requires IsRun(INIT, actions)
    ensures CanFinish(Final(INIT, actions)) <==> !HandlerMutates(Final(INIT, actions))
  {
    InitInv();
    var base := RunKeepsInv(INIT, INIT.heap, actions);
    var f := Final(INIT, actions);
    if HandlerMutates(f) {
      var a :| a in f.acts && f.acts[a].Mutate? && f.acts[a].from.Within? && !Done(f.acts[a]);
      forall rest | IsRun(f, rest) ensures !AllDone(Final(f, rest)) {
        HandlerMutatesForever(f, base, rest, a);
      }
    } else {
      FinishAny(f, base);
    }
  }

  // ----- The self-deadlock is reachable -------------------------------------------------------------

  ghost predicate Reachable(s: State) {
    exists actions :: IsRun(INIT, actions) && Final(INIT, actions) == s
  }

  lemma {:induction false} RunThen(s: State, actions: seq<Action>, action: Action)
    requires IsRun(s, actions) && Enabled(Final(s, actions), action) && Obeys(Final(s, actions), action)
    ensures IsRun(s, actions + [action])
    ensures Final(s, actions + [action]) == Next(Final(s, actions), action)
    decreases |actions|
  {
    var all := actions + [action];
    if actions == [] {
      assert all[0] == action && all[1..] == [];
    } else {
      RunThen(Next(s, actions[0]), actions[1..], action);
      assert all[0] == actions[0] && all[1..] == actions[1..] + [action];
    }
  }

  lemma ReachNext(s: State, action: Action)
    requires Reachable(s) && Enabled(s, action) && Obeys(s, action)
    ensures Reachable(Next(s, action))
  {
    var actions :| IsRun(INIT, actions) && Final(INIT, actions) == s;
    RunThen(INIT, actions, action);
  }

  // Thread 0, alone in the system, registers hook 1: the state after its i-th statement.
  function Registering(i: nat): State
    requires i <= 7
  {
    var pc := if i == 0 then MLock else if i == 1 then MTest else if i < 6 then MWrite(i - 2)
              else if i == 6 then MUnlock else MDone;
    State(Stores(INIT.heap, SetHook(1), if i < 2 then 0 else if i < 6 then i - 2 else 4), 0,
          if i == 0 || i == 7 then Unlocked else LockedBy(0), if i < 6 then [] else [1],
          map[0 := Mutate(SetHook(1), pc, Top)])
  }

  lemma RegisteringStep(i: nat)
    requires i < 7
    ensures Enabled(Registering(i), Step(0)) && Next(Registering(i), Step(0)) == Registering(i + 1)
  {
    var s, s' := Registering(i), Next(Registering(i), Step(0));
    assert s'.acts == Registering(i + 1).acts;
    assert 2 <= i < 6 ==> s'.heap == Stores(INIT.heap, SetHook(1), i - 1);
  }

  lemma {:induction false} RegisteringReachable(i: nat)
    requires i <= 7
    ensures Reachable(Registering(i))
  {
    if i == 0 {
      assert IsRun(INIT, []) && Final(INIT, []) == INIT;
      ReachNext(INIT, StartMutate(0, SetHook(1), Top));
    } else {
      RegisteringReachable(i - 1);
      RegisteringStep(i - 1);
      ReachNext(Registering(i - 1), Step(0));
    }
  }

  // Then call 1 goes on until it is inside the handler of hook 1.
  function Calling(i: nat): State
    requires i <= 7
  {
    var s := Registering(7);
    var snap := if i < 2 then [] else [1];
    var c := if i == 0 then Lock1 else if i == 1 then Incr else if i == 2 then Unlock1
             else if i == 3 then Check else if i == 4 then First else if i == 5 then Second(1)
             else if i == 6 then Loop(1, NextOf(s.heap, 1)) else Advance(NextOf(s.heap, 1));
    s.(nested := if i < 2 then 0 else 1, lock := if i == 1 || i == 2 then LockedBy(1) else Unlocked,
       acts := s.acts[1 := Call(c, if i < 7 then [] else [1], snap, Top)])
  }

  lemma CallingStep(i: nat)
    requires i < 7
    ensures Enabled(Calling(i), Step(1)) && Next(Calling(i), Step(1)) == Calling(i + 1)
  {
    SetStores(INIT.heap, 1);
    var s, s' := Calling(i), Next(Calling(i), Step(1));
    assert NextOf(s.heap, 0) == 1;
    assert s'.acts[1] == Calling(i + 1).acts[1];
    assert s'.acts == Calling(i + 1).acts;
  }

  lemma {:induction false} CallingReachable(i: nat)
    requires i <= 7
    ensures Reachable(Calling(i))
  {
    if i == 0 {
      RegisteringReachable(7);
      ReachNext(Registering(7), StartCall(1, Top));
    } else {
      CallingReachable(i - 1);
      CallingStep(i - 1);
      ReachNext(Calling(i - 1), Step(1));
    }
  }

  // A handler that removes its own hook hangs for ever, and so does its call.
  lemma SelfDeadlockReachable()
    ensures exists actions :: IsRun(INIT, actions) && !CanFinish(Final(INIT, actions))
  {
    var s := Calling(7);
    var remove := StartMutate(2, RmHook(1), Within(1));
    CallingReachable(7);
    assert Handling(s.acts[1]) && forall b :: b in s.acts ==> s.acts[b].from == Top;
    ReachNext(s, remove);
    var s' := Next(s, remove);
    assert s'.acts[2] == Mutate(RmHook(1), MLock, Within(1));
    var actions :| IsRun(INIT, actions) && Final(INIT, actions) == s';
    CanFinishIff(actions);
  }

  // ----- The code itself -------------------------------------------------------------------------------

  // The list nodes, nested and the lock, changed in place one C statement at a time. hooks,
  // snap and ran are history.
  class Hooks {
    var next: map<Node, Node>
    var prev: map<Node, Node>
    var nested: nat
    var lock: Lock
    var hooks: seq<Node>
    var acts: map<Id, Activity>

    function Abs(): State
      reads this
    {
      State(Heap(next, prev), nested, lock, hooks, acts)
    }

    constructor ()
      ensures Abs() == INIT
    {
      next, prev, nested, lock, hooks, acts := map[], map[], 0, Unlocked, [], map[];
    }

    function NextNode(n: Node): Node
      reads this
    {
      if n in next then next[n] else n
    }

    function PrevNode(n: Node): Node
      reads this
    {
      if n in prev then prev[n] else n
    }

    // The k-th store of rt_list_insert_before(&name_hooklist, n).
    method InsertBeforeHead(n: Node, k: nat)
      modifies this`next, this`prev
      ensures Heap(next, prev) == Store(Heap(old(next), old(prev)), SetHook(n), k)
    {
      if k == 0 {
        next := next[PrevNode(0) := n];
      } else if k == 1 {
        prev := prev[n := PrevNode(0)];
      } else if k == 2 {
        prev := prev[0 := n];
      } else {
        next := next[n := 0];
      }
    }

    // The k-th store of rt_list_remove(n).
    method Remove(n: Node, k: nat)
      modifies this`next, this`prev
      ensures Heap(next, prev) == Store(Heap(old(next), old(prev)), RmHook(n), k)
    {
      if k == 0 {
        prev := prev[NextNode(n) := PrevNode(n)];
      } else if k == 1 {
        next := next[PrevNode(n) := NextNode(n)];
      } else if k == 2 {
        prev := prev[n := n];
      } else {
        next := next[n := n];
      }
    }

    // The next statement of RT_OBJECT_HOOKLIST_CALL in activity a.
    method CallStep(a: Id)
      requires Enabled(Abs(), Step(a)) && acts[a].Call?
      modifies this
      ensures Abs() == Next(old(Abs()), Step(a))
    {
      var c := acts[a];
      match c.cpc
      case Lock1 => lock := LockedBy(a); acts := acts[a := c.(cpc := Incr)];
      case Incr => nested := nested + 1; acts := acts[a := c.(cpc := Unlock1, snap := hooks)];
      case Unlock1 => lock := Unlocked; acts := acts[a := c.(cpc := Check)];
      case Check => acts := acts[a := c.(cpc := if NextNode(0) == 0 then Lock2 else First)];
      case First => acts := acts[a := c.(cpc := Second(NextNode(0)))];
      case Second(pos) => acts := acts[a := c.(cpc := Loop(pos, NextNode(pos)))];
      case Loop(pos, n) =>
        if pos == 0 {
          acts := acts[a := c.(cpc := Lock2)];
        } else {
          acts := acts[a := c.(cpc := Advance(n), ran := c.ran + [pos])];
        }
      case Advance(n) => acts := acts[a := c.(cpc := Loop(n, NextNode(n)))];
      case Lock2 => lock := LockedBy(a); acts := acts[a := c.(cpc := Decr)];
      case Decr =>
        if nested > 0 {
          nested := nested - 1;
        }
        acts := acts[a := c.(cpc := Unlock2)];
      case Unlock2 => lock := Unlocked; acts := acts[a := c.(cpc := CallDone)];
    }

    // The next statement of a sethook or rmhook in activity a.
    method MutateStep(a: Id)
      requires Enabled(Abs(), Step(a)) && acts[a].Mutate?
      modifies this
      ensures Abs() == Next(old(Abs()), Step(a))
    {
      var m := acts[a];
      match m.mpc
      case MLock => lock := LockedBy(a); acts := acts[a := m.(mpc := MTest)];
      case MTest => acts := acts[a := m.(mpc := if nested != 0 then MRetry else MWrite(0))];
      case MRetry => lock := Unlocked; acts := acts[a := m.(mpc := MLock)];
      case MWrite(k) =>
        if m.op.SetHook? {
          InsertBeforeHead(m.op.n, k);
        } else {
          Remove(m.op.n, k);
        }
        if k < 3 {
          acts := acts[a := m.(mpc := MWrite(k + 1))];
        } else {
          hooks := Registered(hooks, m.op);
          acts := acts[a := m.(mpc := MUnlock)];
        }
      case MUnlock => lock := Unlocked; acts := acts[a := m.(mpc := MDone)];
    }

    // Runs a whole schedule of calls and mutations that obeys the callers' duties.
    method Execute(actions: seq<Action>)
      requires IsRun(Abs(), actions)
      modifies this
      ensures Abs() == Final(old(Abs()), actions)
      decreases |actions|
    {
      if actions == [] {
        return;
      }
      match actions[0] {
        case StartCall(a, from) => acts := acts[a := Call(Lock1, [], [], from)];
        case StartMutate(a, op, from) => acts := acts[a := Mutate(op, MLock, from)];
        case Step(a) =>
          if acts[a].Call? {
            CallStep(a);
          } else {
            MutateStep(a);
          }
      }
      Execute(actions[1..]);
    }

    // From an empty hook list, every call that any schedule completes has run exactly the
    // hooks registered when it began.
    method ExecuteFromStart(actions: seq<Action>)
      requires Abs() == INIT && IsRun(INIT, actions)
      modifies this
      ensures nested == |ActiveIds(Abs())|
      ensures forall a :: a in acts && acts[a].Call? && acts[a].cpc.CallDone? ==>
        acts[a].ran == acts[a].snap && NoRepeats(acts[a].ran)
      ensures nested > 0 ==> RingHeap(Heap(next, prev), hooks)
    {
      CallsRunTheirSnapshot(actions);
      Execute(actions);
    }
  }
}

// The bounded buffer of sem_example.c: a producer and a consumer thread, three semaphores,
// an array of `slots` entries (MAXSEM) and `items` numbers to pass (10 in the source).
// Every semaphore operation and every access to shared data is one step; the threads
// interleave in any order.
module ProducerConsumer {
  const UINT32: int := 0x1_0000_0000

  datatype Sem = Lock | Empty | Full

  // Before which statement of the loop a thread stands.
  datatype Producer =
    | PTakeEmpty | PTakeLock | PWrite | PAdvance | PReleaseLock | PReleaseFull | PCount | PDone

  datatype Consumer =
    | CTakeFull | CTakeLock | CSum | CAdvance | CReleaseLock | CReleaseEmpty | CTest
    | CDetachLock | CDetachEmpty | CDetachFull | CDone

  // `setAt` and `getAt` are the C variables set and get; `printed` is what the consumer
  // has printed so far; `detached` holds the semaphores the consumer has detached.
  datatype State = State(
    slots: seq<int>, setAt: nat, getAt: nat,
    empty: nat, full: nat, lock: nat,
    cnt: nat, sum: nat, p: Producer, c: Consumer,
    printed: seq<int>, detached: set<Sem>)

  datatype Who = P | C

  // `while (cnt < items)`.
  function LoopTest(items: nat, cnt: nat): Producer {
    if cnt < items then PTakeEmpty else PDone
  }

  function Start(slots: seq<int>, items: nat): State {
    State(slots, 0, 0, |slots|, 0, 1, 0, 0, LoopTest(items, 0), CTakeFull, [], {})
  }

  // A take blocks while the semaphore is 0.
  predicate Ready(s: State, w: Who) {
    match w
    case P => s.p != PDone && (s.p == PTakeEmpty ==> s.empty > 0) && (s.p == PTakeLock ==> s.lock > 0)
    case C => s.c != CDone && (s.c == CTakeFull ==> s.full > 0) && (s.c == CTakeLock ==> s.lock > 0)
  }

  predicate IsFinal(s: State) {
    s.p == PDone && s.c == CDone
  }

  function ProducerNext(s: State, items: nat): State
    requires Ready(s, P) && |s.slots| > 0
  {
    match s.p
    case PTakeEmpty => s.(empty := s.empty - 1, p := PTakeLock)
    case PTakeLock => s.(lock := s.lock - 1, p := PWrite)
    case PWrite => s.(slots := s.slots[s.setAt % |s.slots| := s.cnt + 1], p := PAdvance)
    case PAdvance => s.(setAt := (s.setAt + 1) % UINT32, p := PReleaseLock)
    case PReleaseLock => s.(lock := s.lock + 1, p := PReleaseFull)
    case PReleaseFull => s.(full := s.full + 1, p := PCount)
    case PCount => s.(cnt := s.cnt + 1, p := LoopTest(items, s.cnt + 1))
    case PDone => s
  }

  function ConsumerNext(s: State, items: nat): State
    requires Ready(s, C) && |s.slots| > 0
  {
    var item := s.slots[s.getAt % |s.slots|];
    match s.c
    case CTakeFull => s.(full := s.full - 1, c := CTakeLock)
    case CTakeLock => s.(lock := s.lock - 1, c := CSum)
    case CSum => s.(sum := (s.sum + item) % UINT32, printed := s.printed + [item], c := CAdvance)
    case CAdvance => s.(getAt := (s.getAt + 1) % UINT32, c := CReleaseLock)
    case CReleaseLock => s.(lock := s.lock + 1, c := CReleaseEmpty)
    case CReleaseEmpty => s.(empty := s.empty + 1, c := CTest)
    case CTest => s.(c := if s.getAt == items then CDetachLock else CTakeFull)
    case CDetachLock => s.(detached := s.detached + {Lock}, c := CDetachEmpty)
    case CDetachEmpty => s.(detached := s.detached + {Empty}, c := CDetachFull)
    case CDetachFull => s.(detached := s.detached + {Full}, c := CDone)
    case CDone => s
  }

  function Next(s: State, w: Who, items: nat): State
    requires Ready(s, w) && |s.slots| > 0
  {
    if w == P then ProducerNext(s, items) else ConsumerNext(s, items)
  }

  // The semaphore that a thread's next statement uses.
  function Uses(s: State, w: Who): set<Sem> {
    match w
    case P => (match s.p
               case PTakeEmpty => {Empty}
               case PTakeLock => {Lock}
               case PReleaseLock => {Lock}
               case PReleaseFull => {Full}
               case _ => {})
    case C => (match s.c
               case CTakeFull => {Full}
               case CTakeLock => {Lock}
               case CReleaseLock => {Lock}
               case CReleaseEmpty => {Empty}
               case CDetachLock => {Lock}
               case CDetachEmpty => {Empty}
               case CDetachFull => {Full}
               case _ => {})
  }

  // ----- The invariant --------------------------------------------------------------------

  function One(b: bool): nat { if b then 1 else 0 }

  function Sum1To(n: nat): nat { if n == 0 then 0 else Sum1To(n - 1) + n }

  predicate ProducerInside(s: State) { s.p.PWrite? || s.p.PAdvance? || s.p.PReleaseLock? }

  predicate ConsumerInside(s: State) { s.c.CSum? || s.c.CAdvance? || s.c.CReleaseLock? }

  // A unit taken from `empty` and not yet given to `full`, and the other way round.
  predicate ProducerCarries(s: State) { s.p.PTakeLock? || ProducerInside(s) || s.p.PReleaseFull? }

  predicate ConsumerCarries(s: State) { s.c.CTakeLock? || ConsumerInside(s) || s.c.CReleaseEmpty? }

  predicate Leaving(c: Consumer) { c.CDetachLock? || c.CDetachEmpty? || c.CDetachFull? || c.CDone? }

  predicate Counters(s: State, items: nat) {
    && s.setAt == s.cnt + One(s.p.PReleaseLock? || s.p.PReleaseFull? || s.p.PCount?)
    && s.lock + One(ProducerInside(s)) + One(ConsumerInside(s)) == 1
    && s.empty + s.full + One(ProducerCarries(s)) + One(ConsumerCarries(s)) == |s.slots|
    && s.full + s.getAt + One(s.c.CTakeLock? || s.c.CSum? || s.c.CAdvance?) == s.cnt + One(s.p.PCount?)
    && (if s.p.PDone? then s.cnt == items else s.cnt < items)
  }

  predicate ConsumerProgress(s: State, items: nat) {
    && (if Leaving(s.c) then s.getAt == items
        else if s.c.CReleaseLock? || s.c.CReleaseEmpty? || s.c.CTest? then 0 < s.getAt <= items
        else s.getAt < items)
    && s.detached == (match s.c
                      case CDetachEmpty => {Lock}
                      case CDetachFull => {Lock, Empty}
                      case CDone => {Lock, Empty, Full}
                      case _ => {})
  }

  // How many numbers the consumer has read.
  function Read(s: State): nat { s.getAt + One(s.c.CAdvance?) }

  predicate Data(s: State)
    requires |s.slots| > 0
  {
    && (forall j :: s.getAt <= j < s.setAt + One(s.p.PAdvance?) ==> s.slots[j % |s.slots|] == j + 1)
    && s.printed == seq(Read(s), i => i + 1)
    && s.sum == Sum1To(Read(s)) % UINT32
  }

  predicate Inv(s: State, items: nat) {
    |s.slots| > 0 && Counters(s, items) && ConsumerProgress(s, items) && Data(s)
  }

  lemma StartInv(slots: seq<int>, items: nat)
    requires |slots| > 0 && items > 0
    ensures Inv(Start(slots, items), items)
  {
  }

  lemma NoMultipleBetween(n: nat, k: int)
    ensures !(0 < n * k < n)
  {
    if k >= 1 { assert n * k >= n; } else { assert n * k <= 0; }
  }

  // Indices less than a buffer length apart fall into different slots.
  lemma DistinctSlots(i: nat, j: nat, n: nat)
    requires i < j < i + n
    ensures i % n != j % n
  {
    var a, b := i / n, j / n;
    assert i == n * a + i % n && j == n * b + j % n;
    assert n * (b - a) == n * b - n * a;
    NoMultipleBetween(n, b - a);
  }

  lemma ProducerKeepsCounters(s: State, items: nat)
    requires |s.slots| > 0 && Counters(s, items) && Ready(s, P) && items < UINT32
    ensures Counters(ProducerNext(s, items), items)
  {
  }

  // Storing item i leaves the slots of the items not yet read alone.
  lemma StoreKeepsItems(slots: seq<int>, getAt: nat, i: nat)
    requires |slots| > 0 && getAt <= i < getAt + |slots|
    requires forall j :: getAt <= j < i ==> slots[j % |slots|] == j + 1
    ensures forall j :: getAt <= j <= i ==> slots[i % |slots| := i + 1][j % |slots|] == j + 1
  {
    forall j | getAt <= j < i ensures j % |slots| != i % |slots| {
      DistinctSlots(j, i, |slots|);
    }
  }

  lemma ProducerKeepsData(s: State, items: nat)
    requires Inv(s, items) && Ready(s, P) && items < UINT32
    ensures Data(ProducerNext(s, items))
  {
    var s' := ProducerNext(s, items);
    assert Read(s') == Read(s);
    if s.p.PWrite? {
      StoreKeepsItems(s.slots, s.getAt, s.setAt);
    } else {
      assert s'.slots == s.slots && s'.setAt + One(s'.p.PAdvance?) == s.setAt + One(s.p.PAdvance?);
    }
  }

  lemma ProducerKeepsInv(s: State, items: nat)
    requires Inv(s, items) && Ready(s, P) && items < UINT32
    ensures Inv(ProducerNext(s, items), items)
  {
    ProducerKeepsCounters(s, items);
    ProducerKeepsData(s, items);
  }

  // Reading an item: the slot at getAt holds the next number in production order.
  lemma ItemIsNext(s: State, items: nat)
    requires Inv(s, items) && s.c.CSum?
    ensures s.slots[s.getAt % |s.slots|] == s.getAt + 1
  {
    assert s.full + s.getAt + 1 <= s.setAt;
  }

  lemma SumModulo(a: nat, n: nat)
    requires a == Sum1To(n) % UINT32
    ensures (a + (n + 1)) % UINT32 == Sum1To(n + 1) % UINT32
  {
    var k := Sum1To(n) / UINT32;
    assert Sum1To(n + 1) == UINT32 * k + (a + (n + 1));
  }

  lemma ConsumerKeepsData(s: State, items: nat)
    requires Inv(s, items) && Ready(s, C) && items < UINT32
    ensures Data(ConsumerNext(s, items))
  {
    var s' := ConsumerNext(s, items);
    assert s'.slots == s.slots && s'.getAt >= s.getAt && s'.setAt == s.setAt && s'.p == s.p;
    if s.c.CSum? {
      var n := s.getAt;
      ItemIsNext(s, items);
      SumModulo(s.sum, n);
      assert s'.printed == seq(n, i => i + 1) + [n + 1] == seq(n + 1, i => i + 1);
      assert s'.sum == Sum1To(n + 1) % UINT32;
    } else {
      assert Read(s') == Read(s);
    }
  }

  lemma ConsumerKeepsInv(s: State, items: nat)
    requires Inv(s, items) && Ready(s, C) && items < UINT32
    ensures Inv(ConsumerNext(s, items), items)
  {
    ConsumerKeepsData(s, items);
  }

  lemma StepKeepsInv(s: State, w: Who, items: nat)
    requires Inv(s, items) && Ready(s, w) && items < UINT32
    ensures Inv(Next(s, w, items), items)
  {
    if w == P { ProducerKeepsInv(s, items); } else { ConsumerKeepsInv(s, items); }
  }

  // What the invariant says to a reader: the threads exclude each other, no unit is lost,
  // the buffer neither underflows nor overflows, and its live slots hold what was produced.
  lemma InvMeaning(s: State, items: nat)
    requires Inv(s, items)
    ensures !(ProducerInside(s) && ConsumerInside(s))
    ensures s.getAt <= s.setAt <= s.getAt + |s.slots|
    ensures forall j :: s.getAt <= j < s.setAt ==> s.slots[j % |s.slots|] == j + 1
    ensures s.printed == seq(|s.printed|, i => i + 1)
  {
  }

  // ----- Deadlock, termination, use after detach --------------------------------------------

  lemma SomebodyReady(s: State, items: nat)
    requires Inv(s, items) && !IsFinal(s)
    ensures Ready(s, P) || Ready(s, C)
  {
  }

  // No thread uses a detached semaphore, nor is one blocked on a semaphore when it is detached.
  lemma NoUseAfterDetach(s: State, w: Who, items: nat)
    requires Inv(s, items)
    ensures Uses(s, w) !! s.detached
  {
  }

  // Steps left to the two threads.
  function ProducerLeft(p: Producer, cnt: nat, items: nat): int {
    match p
    case PTakeEmpty => 7 * (items - cnt)
    case PTakeLock => 7 * (items - cnt) - 1
    case PWrite => 7 * (items - cnt) - 2
    case PAdvance => 7 * (items - cnt) - 3
    case PReleaseLock => 7 * (items - cnt) - 4
    case PReleaseFull => 7 * (items - cnt) - 5
    case PCount => 7 * (items - cnt) - 6
    case PDone => 0
  }

  function ConsumerLeft(c: Consumer, getAt: nat, items: nat): int {
    match c
    case CTakeFull => 7 * (items - getAt) + 3
    case CTakeLock => 7 * (items - getAt) + 2
    case CSum => 7 * (items - getAt) + 1
    case CAdvance => 7 * (items - getAt)
    case CReleaseLock => 7 * (items - getAt) + 6
    case CReleaseEmpty => 7 * (items - getAt) + 5
    case CTest => 7 * (items - getAt) + 4
    case CDetachLock => 3
    case CDetachEmpty => 2
    case CDetachFull => 1
    case CDone => 0
  }

  function Left(s: State, items: nat): int {
    ProducerLeft(s.p, s.cnt, items) + ConsumerLeft(s.c, s.getAt, items)
  }

  lemma ProducerStepCounts(s: State, items: nat)
    requires |s.slots| > 0 && Counters(s, items) && Ready(s, P)
    ensures var s' := ProducerNext(s, items);
      ProducerLeft(s'.p, s'.cnt, items) == ProducerLeft(s.p, s.cnt, items) - 1
  {
  }

  lemma ConsumerStepCounts(s: State, items: nat)
    requires |s.slots| > 0 && ConsumerProgress(s, items) && Ready(s, C) && items < UINT32
    ensures var s' := ConsumerNext(s, items);
      ConsumerLeft(s'.c, s'.getAt, items) == ConsumerLeft(s.c, s.getAt, items) - 1
  {
    if s.c.CAdvance? { assert (s.getAt + 1) % UINT32 == s.getAt + 1; }
  }

  lemma StepCounts(s: State, w: Who, items: nat)
    requires Inv(s, items) && Ready(s, w) && items < UINT32
    ensures Left(Next(s, w, items), items) == Left(s, items) - 1
  {
    if w == P { ProducerStepCounts(s, items); } else { ConsumerStepCounts(s, items); }
  }

  lemma LeftNonNegative(s: State, items: nat)
    requires Inv(s, items)
    ensures Left(s, items) >= 0
  {
  }

  // ----- Whole runs ---------------------------------------------------------------------------

  predicate IsRun(s: State, ws: seq<Who>, items: nat)
    requires |s.slots| > 0
    decreases |ws|
  {
    ws == [] || (Ready(s, ws[0]) && IsRun(Next(s, ws[0], items), ws[1..], items))
  }

  function Final(s: State, ws: seq<Who>, items: nat): State
    requires |s.slots| > 0 && IsRun(s, ws, items)
    decreases |ws|
  {
    if ws == [] then s else Final(Next(s, ws[0], items), ws[1..], items)
  }

  lemma {:induction false} RunKeepsInv(s: State, ws: seq<Who>, items: nat)
    requires Inv(s, items) && IsRun(s, ws, items) && items < UINT32
    ensures Inv(Final(s, ws, items), items)
    ensures Left(Final(s, ws, items), items) == Left(s, items) - |ws|
    decreases |ws|
  {
    if ws != [] {
      StepKeepsInv(s, ws[0], items);
      StepCounts(s, ws[0], items);
      RunKeepsInv(Next(s, ws[0], items), ws[1..], items);
    }
  }

  lemma {:induction false} SumFormula(n: nat)
    ensures Sum1To(n) == n * (n + 1) / 2
  {
    if n > 0 { SumFormula(n - 1); }
  }

  // Every interleaving that cannot go on has run both threads to their end in exactly
  // 14 * items + 3 steps, printed 1, 2, ..., items and summed them up (modulo 2^32).
  lemma CompleteRun(slots: seq<int>, items: nat, ws: seq<Who>)
    requires |slots| > 0 && 0 < items < UINT32 && IsRun(Start(slots, items), ws, items)
    ensures var f := Final(Start(slots, items), ws, items);
      && |ws| <= 14 * items + 3
      && (!Ready(f, P) && !Ready(f, C) ==>
            && IsFinal(f) && |ws| == 14 * items + 3
            && f.setAt == f.getAt == items && f.empty == |slots| && f.full == 0 && f.lock == 1
            && f.detached == {Lock, Empty, Full}
            && f.printed == seq(items, i => i + 1)
            && f.sum == (items * (items + 1) / 2) % UINT32)
  {
    var s := Start(slots, items);
    var f := Final(s, ws, items);
    StartInv(slots, items);
    RunKeepsInv(s, ws, items);
    if !Ready(f, P) && !Ready(f, C) {
      if !IsFinal(f) { SomebodyReady(f, items); }
      SumFormula(items);
    }
    LeftNonNegative(f, items);
    SlotsKept(s, ws, items);
  }

  // Every interleaving, at every point: no unit of a semaphore is lost, the threads exclude
  // each other, the buffer neither underflows nor overflows and its live slots hold what was
  // produced, items are consumed in production order, a thread can go on unless both are
  // done, and no thread stands at a statement, blocked or not, on a detached semaphore.
  lemma EveryReachableState(slots: seq<int>, items: nat, ws: seq<Who>)
    requires |slots| > 0 && 0 < items < UINT32 && IsRun(Start(slots, items), ws, items)
    ensures var f := Final(Start(slots, items), ws, items);
      && |f.slots| == |slots|
      && f.empty + f.full + One(ProducerCarries(f)) + One(ConsumerCarries(f)) == |slots|
      && !(ProducerInside(f) && ConsumerInside(f))
      && f.getAt <= f.setAt <= f.getAt + |slots|
      && (forall j :: f.getAt <= j < f.setAt ==> f.slots[j % |slots|] == j + 1)
      && f.printed == seq(|f.printed|, i => i + 1)
      && (IsFinal(f) || Ready(f, P) || Ready(f, C))
      && (forall w :: Uses(f, w) !! f.detached)
  {
    StartInv(slots, items);
    RunKeepsInv(Start(slots, items), ws, items);
    SlotsKept(Start(slots, items), ws, items);
    var f := Final(Start(slots, items), ws, items);
    InvMeaning(f, items);
    if !IsFinal(f) { SomebodyReady(f, items); }
    forall w ensures Uses(f, w) !! f.detached { NoUseAfterDetach(f, w, items); }
  }

  lemma {:induction false} SlotsKept(s: State, ws: seq<Who>, items: nat)
    requires |s.slots| > 0 && IsRun(s, ws, items)
    ensures |Final(s, ws, items).slots| == |s.slots|
    decreases |ws|
  {
    if ws != [] { SlotsKept(Next(s, ws[0], items), ws[1..], items); }
  }

  predicate Stuck(s: State) {
    !IsFinal(s) && !Ready(s, P) && !Ready(s, C)
  }

  ghost predicate CanGetStuck(slots: seq<int>, items: nat) {
    var s := Start(slots, items);
    Stuck(s) || (|slots| > 0 && exists ws :: IsRun(s, ws, items) && Stuck(Final(s, ws, items)))
  }

  // The threads can get stuck short of their end if and only if there is no slot or no item:
  // the consumer waits for a first item before it ever tests for the last.
  lemma StuckIff(slots: seq<int>, items: nat)
    requires items < UINT32
    ensures CanGetStuck(slots, items) <==> |slots| == 0 || items == 0
  {
    var s := Start(slots, items);
    if |slots| > 0 && items > 0 {
      forall ws | IsRun(s, ws, items) ensures !Stuck(Final(s, ws, items)) {
        CompleteRun(slots, items, ws);
      }
      CompleteRun(slots, items, []);
    }
  }

  // ----- The program itself ---------------------------------------------------------------------

  class Example {
    const items: nat
    const arr: array<int>
    var setAt: nat
    var getAt: nat
    var empty: nat
    var full: nat
    var lock: nat
    var cnt: nat
    var sum: nat
    var p: Producer
    var c: Consumer
    var printed: seq<int>
    var detached: set<Sem>

    function Abs(): State
      reads this, arr
    {
      State(arr[..], setAt, getAt, empty, full, lock, cnt, sum, p, c, printed, detached)
    }

    // semaphore_producer_consumer_example: initial values of the shared data.
    constructor (slots: nat, items: nat)
      requires slots > 0
      ensures fresh(arr) && arr.Length == slots && this.items == items
      ensures Abs() == Start(arr[..], items)
    {
      this.items := items;
      arr := new int[slots];
      setAt, getAt := 0, 0;
      lock, empty, full := 1, slots, 0;
      cnt, sum := 0, 0;
      p, c := LoopTest(items, 0), CTakeFull;
      printed, detached := [], {};
    }

    method ProducerStep()
      requires arr.Length > 0 && Ready(Abs(), P)
      modifies this, arr
      ensures Abs() == ProducerNext(old(Abs()), items)
    {
      match p
      case PTakeEmpty => empty := empty - 1; p := PTakeLock;
      case PTakeLock => lock := lock - 1; p := PWrite;
      case PWrite => arr[setAt % arr.Length] := cnt + 1; p := PAdvance;
      case PAdvance => setAt := (setAt + 1) % UINT32; p := PReleaseLock;
      case PReleaseLock => lock := lock + 1; p := PReleaseFull;
      case PReleaseFull => full := full + 1; p := PCount;
      case PCount => cnt := cnt + 1; p := LoopTest(items, cnt);
    }

    method ConsumerStep()
      requires arr.Length > 0 && Ready(Abs(), C)
      modifies this
      ensures Abs() == ConsumerNext(old(Abs()), items)
    {
      match c
      case CTakeFull => full := full - 1; c := CTakeLock;
      case CTakeLock => lock := lock - 1; c := CSum;
      case CSum =>
        sum := (sum + arr[getAt % arr.Length]) % UINT32;
        printed := printed + [arr[getAt % arr.Length]];
        c := CAdvance;
      case CAdvance => getAt := (getAt + 1) % UINT32; c := CReleaseLock;
      case CReleaseLock => lock := lock + 1; c := CReleaseEmpty;
      case CReleaseEmpty => empty := empty + 1; c := CTest;
      case CTest => c := if getAt == items then CDetachLock else CTakeFull;
      case CDetachLock => detached := detached + {Lock}; c := CDetachEmpty;
      case CDetachEmpty => detached := detached + {Empty}; c := CDetachFull;
      case CDetachFull => detached := detached + {Full}; c := CDone;
    }

    // Both threads under a scheduler that picks any thread that is not blocked: it always
    // finds one, the program ends, and the sum is right.
    method Run()
      requires arr.Length > 0 && 0 < items < UINT32 && Abs() == Start(arr[..], items)
      modifies this, arr
      ensures IsFinal(Abs()) && detached == {Lock, Empty, Full}
      ensures printed == seq(items, i => i + 1)
      ensures sum == (items * (items + 1) / 2) % UINT32
    {
      StartInv(arr[..], items);
      while !(p == PDone && c == CDone)
        invariant Inv(Abs(), items)
        decreases Left(Abs(), items)
      {
        ghost var s := Abs();
        SomebodyReady(s, items);
        if
        case Ready(Abs(), P) =>
          StepCounts(s, P, items);
          StepKeepsInv(s, P, items);
          LeftNonNegative(s, items);
          ProducerStep();
        case Ready(Abs(), C) =>
          StepCounts(s, C, items);
          StepKeepsInv(s, C, items);
          LeftNonNegative(s, items);
          ConsumerStep();
      }
      SumFormula(items);
    }
  }
}

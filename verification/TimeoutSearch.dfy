// timeout_calc of hwtimer.c: splitting a requested time into `cycles` rounds of `counter`
// ticks. The C code computes in float; here times are exact reals.
module TimeoutSearch {
  import opened Arithmetic
  import opened TickSplit

  // ----- In seconds, as the code computes ---------------------------------------------------------

  function Seconds(sec: int, usec: int): real {
    sec as real + usec as real / 1000000.0
  }

  // The expressions of the loop body: timeout, its counter value and the deviation.
  function CounterOf(timeout: real, freq: int): int {
    (timeout * freq as real).Floor
  }

  function Deviation(tvSec: real, freq: int, i: int): real
    requires freq > 0 && i >= 1
  {
    tvSec - CounterOf(tvSec / i as real, freq) as real / freq as real * i as real
  }

  lemma DivMul(a: real, i: real, f: real)
    requires i > 0.0
    ensures a / i * f == a * f / i
  {
    var q := a / i;
    assert q * i == a;
    assert (q * f) * i == a * f;
  }

  lemma CounterInTicks(tvSec: real, freq: int, i: int)
    requires freq > 0 && i >= 1
    ensures CounterOf(tvSec / i as real, freq) == Count(tvSec * freq as real, i)
  {
    DivMul(tvSec, i as real, freq as real);
    SameFloor(tvSec / i as real * freq as real, tvSec * freq as real / i as real);
  }

  lemma DeviationInTicks(tvSec: real, freq: int, i: int)
    requires freq > 0 && i >= 1
    ensures Deviation(tvSec, freq, i) * freq as real == Lost(tvSec * freq as real, i)
  {
    var f, r, c := freq as real, i as real, Count(tvSec * freq as real, i);
    CounterInTicks(tvSec, freq, i);
    var g := c as real / f;
    var h := g * r;
    assert g * f == c as real;
    assert h * f == (g * f) * r == c as real * r == (c * i) as real;
    assert (tvSec - h) * f == tvSec * f - h * f;
  }

  lemma FitInTicks(tvSec: real, freq: int, maxcnt: int, i: int)
    requires freq > 0 && i >= 1
    ensures tvSec / i as real <= maxcnt as real / freq as real <==> Fits(tvSec * freq as real, maxcnt, i)
  {
    var f, r, m := freq as real, i as real, maxcnt as real;
    var p, o := tvSec / r, m / f;
    assert p * r == tvSec && o * f == m;
    var pf := p * f;
    assert pf * r == (p * r) * f;
    Cancel(p, o, f);
    Cancel(pf, m, r);
    assert m * r == (maxcnt * i) as real;
  }

  lemma InTicks(tvSec: real, freq: int, maxcnt: int, i: int)
    requires freq > 0 && i >= 1
    ensures CounterOf(tvSec / i as real, freq) == Count(tvSec * freq as real, i)
    ensures Deviation(tvSec, freq, i) * freq as real == Lost(tvSec * freq as real, i)
    ensures tvSec / i as real <= maxcnt as real / freq as real <==> Fits(tvSec * freq as real, maxcnt, i)
  {
    CounterInTicks(tvSec, freq, i);
    DeviationInTicks(tvSec, freq, i);
    FitInTicks(tvSec, freq, maxcnt, i);
  }

  // `ticks` is the time `sec` in ticks.
  predicate InUnits(sec: real, freq: int, ticks: real) {
    ticks == sec * freq as real
  }

  lemma LittleIff(tvSec: real, f: real, u: real)
    requires f > 0.0 && u * f == 1.0
    ensures u <= tvSec <==> 1.0 <= tvSec * f
  {
    Cancel(u, tvSec, f);
  }

  lemma LittleTimeout(tvSec: real, freq: int, x: real)
    requires freq > 0 && InUnits(tvSec, freq, x)
    ensures 1.0 / freq as real <= tvSec <==> 1.0 <= x
    ensures CounterOf(1.0 / freq as real, freq) == 1
  {
    OneTick(freq as real);
    LittleIff(tvSec, freq as real, 1.0 / freq as real);
  }

  lemma OneTick(f: real)
    requires f > 0.0
    ensures 1.0 / f * f == 1.0 && (1.0 / f * f).Floor == 1
  {
  }

  // ----- The search -----------------------------------------------------------------------------------

  // The result for `cycles` rounds; BadIndex is the division `tv_sec / index` with index 0;
  // IntOverflow is `i++` on the largest int, which C leaves undefined.
  datatype Timeout = Split(cycles: int, periodSec: real, counter: int) | BadIndex | IntOverflow

  // The state of the loop before divisor i, with devi_min in ticks: it is the loss of the
  // last divisor examined and the least so far.
  ghost predicate Searching(x: real, freq: int, maxcnt: int, i: int, index: int, min: real) {
    && NeverRises(x, maxcnt, i - 1) && 0 <= index < i
    && (forall j :: 1 <= j < i ==> !StopsAt(x, freq, maxcnt, j))
    && (forall j :: 1 <= j < i && Fits(x, maxcnt, j) ==> Lost(x, j) > 0.0 && min <= Lost(x, j) <= freq as real)
    && (if i > 1 && Fits(x, maxcnt, i - 1) then min == Lost(x, i - 1) else index == 0)
    && (if index > 0 then Fits(x, maxcnt, index) && Lost(x, index) == min < freq as real
        else min == freq as real && forall j :: 1 <= j < i && Fits(x, maxcnt, j) ==> Lost(x, j) == min)
  }

  lemma SearchStarts(x: real, freq: int, maxcnt: int)
    requires x >= 1.0
    ensures Searching(x, freq, maxcnt, 1, 0, freq as real) && InUnits(1.0, freq, freq as real)
    ensures x.Floor >= 1
  {
  }

  lemma SearchGoesOn(x: real, freq: int, maxcnt: int, i: int, index: int, min: real)
    requires x >= 1.0 && freq > 0 && maxcnt >= 0 && i >= 1 && Searching(x, freq, maxcnt, i, index, min)
    requires Fits(x, maxcnt, i) ==> 0.0 < Lost(x, i) <= min
    ensures var better := Fits(x, maxcnt, i) && Lost(x, i) < min;
      Searching(x, freq, maxcnt, i + 1, if better then i else index, if better then Lost(x, i) else min)
    ensures !StopsAt(x, freq, maxcnt, i)
  {
    if !Fits(x, maxcnt, i) {
      forall j | 1 <= j < i ensures !Fits(x, maxcnt, j) {
        if Fits(x, maxcnt, j) { FitsUpward(x, maxcnt, j, i); }
      }
    }
    assert NeverRises(x, maxcnt, i);
  }

  lemma SearchStops(x: real, freq: int, maxcnt: int, i: int, index: int, min: real)
    requires x >= 1.0 && freq > 0 && maxcnt >= 0 && i >= 1 && Searching(x, freq, maxcnt, i, index, min)
    requires Fits(x, maxcnt, i) && (Lost(x, i) == 0.0 || Lost(x, i) > min)
    ensures FirstStop(x, freq, maxcnt, i)
    ensures Lost(x, i) == 0.0 ==> Settles(x, maxcnt, i, i)
    ensures Lost(x, i) > min && index > 0 ==> Settles(x, maxcnt, index, i)
    ensures SearchFails(x, freq, maxcnt) <==> Lost(x, i) > min && index == 0
  {
    if Lost(x, i) > min && index == 0 {
      assert forall j :: 1 <= j < i && Fits(x, maxcnt, j) ==> Lost(x, j) == freq as real;
    }
  }

  // What timeout_calc promises about its result r for a time of x ticks; its search ended at
  // divisor `stop` unless it ran out of divisors.
  ghost predicate Result(tvSec: real, freq: int, maxcnt: int, x: real, r: Timeout, stop: int)
    requires freq > 0
  {
    if x < 1.0 then
      r == Split(0, 1.0 / freq as real, 1)
    else if r.IntOverflow? then
      !StopsInInt(x, freq, maxcnt)
    else
      && 1 <= stop <= INT_MAX && stop <= x.Floor + 1
      && FirstStop(x, freq, maxcnt, stop) && NeverRises(x, maxcnt, stop - 1)
      && (r.BadIndex? <==> SearchFails(x, freq, maxcnt))
      && (r.Split? ==>
            && Settles(x, maxcnt, r.cycles, stop)
            && r.periodSec == tvSec / r.cycles as real
            && r.counter == Count(x, r.cycles) == CounterOf(r.periodSec, freq))
  }

  lemma CompareInTicks(a: real, b: real, freq: int, x: real, y: real)
    requires freq > 0 && InUnits(a, freq, x) && InUnits(b, freq, y)
    ensures (a > b <==> x > y) && (a < b <==> x < y) && (a == 0.0 <==> x == 0.0)
  {
    Cancel(a, b, freq as real);
    Cancel(a, 0.0, freq as real);
  }

  // The loop body's computation for divisor i: whether the round fits the counter, and the
  // deviation in seconds, which compares with devi_min as the ticks lost do with `min`.
  method Examine(tvSec: real, freq: int, maxcnt: int, i: int, deviMin: real, ghost x: real, ghost min: real)
    returns (timeout: real, fits: bool, devi: real)
    requires freq > 0 && i >= 1 && x >= 0.0
    requires InUnits(tvSec, freq, x) && InUnits(deviMin, freq, min)
    ensures timeout == tvSec / i as real
    ensures CounterOf(timeout, freq) == Count(x, i)
    ensures fits <==> Fits(x, maxcnt, i)
    ensures InUnits(devi, freq, Lost(x, i)) && Lost(x, i) >= 0.0
    ensures (devi > deviMin <==> Lost(x, i) > min) && (devi < deviMin <==> Lost(x, i) < min)
    ensures devi == 0.0 <==> Lost(x, i) == 0.0
  {
    InTicks(tvSec, freq, maxcnt, i);
    CountIsQuotient(x, i);
    timeout := tvSec / i as real;
    fits := timeout <= maxcnt as real / freq as real;
    devi := Deviation(tvSec, freq, i);
    CompareInTicks(devi, deviMin, freq, Lost(x, i), min);
  }

  // `for (i = 1; i > 0; i++)`: the number of rounds, 0 when no divisor has been noted in
  // `index`; `overflow` if i has taken its last value without a break.
  method Search(tvSec: real, freq: int, maxcnt: int, ghost x: real)
    returns (i: int, overflow: bool, ghost stop: int)
    requires freq > 0 && maxcnt >= 0 && InUnits(tvSec, freq, x) && x >= 1.0
    ensures overflow <==> !StopsInInt(x, freq, maxcnt)
    ensures !overflow ==> FirstStop(x, freq, maxcnt, stop) && 1 <= stop <= INT_MAX
    ensures !overflow ==> i >= 0 && (i == 0 <==> SearchFails(x, freq, maxcnt))
    ensures !overflow && i != 0 ==> Settles(x, maxcnt, i, stop)
  {
    var index, deviMin := 0, 1.0;
    i := 1;
    ghost var min := freq as real;
    SearchStarts(x, freq, maxcnt);
    while true
      invariant 1 <= i <= INT_MAX
      invariant InUnits(deviMin, freq, min)
      invariant Searching(x, freq, maxcnt, i, index, min)
      decreases INT_MAX - i
    {
      var _, fits, devi := Examine(tvSec, freq, maxcnt, i, deviMin, x, min);
      if fits {
        if devi > deviMin {
          SearchStops(x, freq, maxcnt, i, index, min);
          return index, false, i;
        } else if devi == 0.0 {
          SearchStops(x, freq, maxcnt, i, index, min);
          return i, false, i;
        }
      }
      SearchGoesOn(x, freq, maxcnt, i, index, min);
      if fits && devi < deviMin {
        min := Lost(x, i);
        deviMin, index := devi, i;
      }
      if i == INT_MAX {
        return i, true, 0;
      }
      i := i + 1;
    }
  }

  // timeout_calc for tv_sec = Seconds(tv->sec, tv->usec).
  method TimeoutCalc(tvSec: real, freq: int, maxcnt: int)
    returns (r: Timeout, ghost x: real, ghost stop: int)
    requires freq > 0 && maxcnt >= 0
    ensures InUnits(tvSec, freq, x)
    ensures Result(tvSec, freq, maxcnt, x, r, stop)
    ensures tvSec < 1.0 / freq as real ==> r == Split(0, 1.0 / freq as real, 1)
    ensures 1.0 / freq as real <= tvSec && r.Split? ==>
      r.cycles >= 1 && 1 <= r.counter <= maxcnt && (r.counter * r.cycles) as real <= tvSec * freq as real
    ensures tvSec <= maxcnt as real ==> !r.BadIndex?
    ensures tvSec <= maxcnt as real && freq <= 1000000000 && 2 <= maxcnt < 0x1_0000_0000 ==> r.Split?
  {
    x := tvSec * freq as real;
    LittleTimeout(tvSec, freq, x);
    SecondsWithinMaxcnt(tvSec, freq, maxcnt, x);
    stop := 0;
    if tvSec < 1.0 / freq as real {
      var timeout := 1.0 / freq as real;
      r := Split(0, timeout, CounterOf(timeout, freq));
    } else {
      var i, overflow;
      i, overflow, stop := Search(tvSec, freq, maxcnt, x);
      if overflow {
        r := IntOverflow;
      } else {
        FirstStopBounds(x, freq, maxcnt, stop);
        FirstStopNeverRises(x, freq, maxcnt, stop);
        r := Rounds(tvSec, freq, i, x);
      }
      CalcPromises(tvSec, freq, maxcnt, x, r, stop);
    }
  }

  // `timeout = tv_sec / i` and the counter value for it.
  method Rounds(tvSec: real, freq: int, i: int, ghost x: real) returns (r: Timeout)
    requires freq > 0 && i >= 0 && InUnits(tvSec, freq, x)
    ensures r == (if i == 0 then BadIndex else Split(i, tvSec / i as real, Count(x, i)))
    ensures r.Split? ==> r.counter == CounterOf(r.periodSec, freq)
  {
    if i == 0 {
      r := BadIndex;
    } else {
      var timeout := tvSec / i as real;
      CounterInTicks(tvSec, freq, i);
      r := Split(i, timeout, CounterOf(timeout, freq));
    }
  }

  // ----- What the split is worth ------------------------------------------------------------------------

  lemma CountAtLeastOne(x: real, c: int)
    requires x >= 1.0 && c >= 1 && (c <= x.Floor || Lost(x, c) == 0.0)
    ensures Count(x, c) >= 1
  {
    CountIsQuotient(x, c);
    var n, k := x.Floor, x.Floor / c;
    assert n == c * k + n % c;
    if k <= 0 { MulLeq(k, 0, c); }
  }

  lemma CountAtMost(x: real, c: int, maxcnt: int)
    requires x >= 0.0 && c >= 1 && Fits(x, maxcnt, c)
    ensures Count(x, c) <= maxcnt
  {
    CountIsQuotient(x, c);
    var n, k := x.Floor, x.Floor / c;
    assert n == c * k + n % c && n <= maxcnt * c;
    if k > maxcnt { MulLeq(maxcnt + 1, k, c); }
  }

  // The split uses a counter value the hardware can load (so cnt - 1 does not wrap), never
  // overshoots, and loses fewer ticks than any divisor that fits has rounds; among all
  // divisors examined it loses the least.
  lemma SplitIsGood(tvSec: real, freq: int, maxcnt: int, x: real, r: Timeout, stop: int)
    requires freq > 0 && x >= 1.0 && Result(tvSec, freq, maxcnt, x, r, stop) && r.Split?
    ensures 1 <= r.cycles <= stop && 1 <= r.counter <= maxcnt
    ensures 0.0 <= x - (r.counter * r.cycles) as real
    ensures forall i :: 1 <= i && Fits(x, maxcnt, i) ==> x - (r.counter * r.cycles) as real < i as real
    ensures forall i :: 1 <= i <= stop && Fits(x, maxcnt, i) ==>
      x - (r.counter * r.cycles) as real <= Lost(x, i)
  {
    var c := r.cycles;
    CountIsQuotient(x, c);
    CountIsQuotient(x, stop);
    CountAtLeastOne(x, c);
    CountAtMost(x, c, maxcnt);
    forall i | 1 <= i && Fits(x, maxcnt, i) ensures Lost(x, c) < i as real {
      LossBelowAnyFit(x, maxcnt, c, stop, i);
    }
  }

  lemma LossBelowAnyFit(x: real, maxcnt: int, c: int, stop: int, i: int)
    requires x >= 1.0 && Settles(x, maxcnt, c, stop) && 1 <= i && Fits(x, maxcnt, i)
    ensures Lost(x, c) < i as real
  {
    CountIsQuotient(x, i);
    CountIsQuotient(x, c);
  }

  lemma UsableSplit(tvSec: real, freq: int, maxcnt: int, x: real, r: Timeout, stop: int)
    requires freq > 0 && x >= 1.0 && Result(tvSec, freq, maxcnt, x, r, stop) && r.Split?
    ensures r.cycles >= 1 && 1 <= r.counter <= maxcnt
    ensures (r.counter * r.cycles) as real <= x && r.counter == CounterOf(r.periodSec, freq)
  {
    SplitIsGood(tvSec, freq, maxcnt, x, r, stop);
  }

  lemma CalcPromises(tvSec: real, freq: int, maxcnt: int, x: real, r: Timeout, stop: int)
    requires freq > 0 && x >= 1.0 && Result(tvSec, freq, maxcnt, x, r, stop)
    ensures r.Split? ==> r.cycles >= 1 && 1 <= r.counter <= maxcnt && (r.counter * r.cycles) as real <= x
    ensures Fits(x, maxcnt, freq) ==> !r.BadIndex?
    ensures Fits(x, maxcnt, freq) && freq <= 1000000000 && 2 <= maxcnt < 0x1_0000_0000 ==> r.Split?
  {
    if r.Split? { UsableSplit(tvSec, freq, maxcnt, x, r, stop); }
    if Fits(x, maxcnt, freq) {
      NeverFails(x, freq, maxcnt);
      if freq <= 1000000000 && 2 <= maxcnt < 0x1_0000_0000 { GigahertzFitsInt(x, freq, maxcnt); }
    }
  }

  // ----- The request in integers -----------------------------------------------------------------------

  const MICROS: int := 1000000

  // The request in millionths of a tick.
  function MicroTicks(sec: int, usec: int, freq: int): int {
    (sec * MICROS + usec) * freq
  }

  lemma RequestInTicks(sec: int, usec: int, freq: int, x: real)
    requires InUnits(Seconds(sec, usec), freq, x)
    ensures x * 1000000.0 == MicroTicks(sec, usec, freq) as real
  {
    var us := sec * MICROS + usec;
    assert Seconds(sec, usec) * 1000000.0 == us as real;
    assert (us * freq) as real == us as real * freq as real;
    assert Seconds(sec, usec) * freq as real * 1000000.0 == Seconds(sec, usec) * 1000000.0 * freq as real;
  }

  // What a split owes to a request of so many millionths of a tick: if it is less than a tick
  // it gets one tick; any other gets rounds that the counter holds, that do not overshoot,
  // and that fall short by fewer ticks than any number of rounds that would fit the counter.
  ghost predicate Answers(request: int, maxcnt: int, cycles: int, counter: int) {
    if request < MICROS then
      cycles == 0 && counter == 1
    else
      && 1 <= cycles && 1 <= counter <= maxcnt
      && counter * cycles * MICROS <= request
      && forall i :: 1 <= i && request <= maxcnt * i * MICROS ==> request - counter * cycles * MICROS < i * MICROS
  }

  lemma InMillionths(x: real, request: int, k: int)
    requires x * 1000000.0 == request as real
    ensures x <= k as real <==> request <= k * MICROS
    ensures x < k as real <==> request < k * MICROS
  {
  }

  lemma SplitAnswers(sec: int, usec: int, freq: int, maxcnt: int, x: real, r: Timeout, stop: int)
    requires freq > 0 && InUnits(Seconds(sec, usec), freq, x) && r.Split?
    requires Result(Seconds(sec, usec), freq, maxcnt, x, r, stop)
    ensures Answers(MicroTicks(sec, usec, freq), maxcnt, r.cycles, r.counter)
  {
    var request := MicroTicks(sec, usec, freq);
    RequestInTicks(sec, usec, freq, x);
    InMillionths(x, request, 1);
    if x >= 1.0 {
      SplitIsGood(Seconds(sec, usec), freq, maxcnt, x, r, stop);
      ShortfallInMillionths(x, request, maxcnt, r.counter * r.cycles);
    }
  }

  lemma ShortfallInMillionths(x: real, request: int, maxcnt: int, p: int)
    requires x * 1000000.0 == request as real && 0.0 <= x - p as real
    requires forall i :: 1 <= i && Fits(x, maxcnt, i) ==> x - p as real < i as real
    ensures p * MICROS <= request
    ensures forall i :: 1 <= i && request <= maxcnt * i * MICROS ==> request - p * MICROS < i * MICROS
  {
    InMillionths(x, request, p);
    forall i | 1 <= i && request <= maxcnt * i * MICROS ensures request - p * MICROS < i * MICROS {
      InMillionths(x, request, maxcnt * i);
      assert Fits(x, maxcnt, i);
      InMillionths(x, request, p + i);
    }
  }

  // Fits(x, maxcnt, freq) is tv_sec <= maxcnt in seconds.
  lemma SecondsWithinMaxcnt(tvSec: real, freq: int, maxcnt: int, x: real)
    requires freq > 0 && InUnits(tvSec, freq, x)
    ensures tvSec <= maxcnt as real <==> Fits(x, maxcnt, freq)
  {
    Cancel(tvSec, maxcnt as real, freq as real);
    assert maxcnt as real * freq as real == (maxcnt * freq) as real;
  }

  // For any time that a struct rt_hwtimerval can hold and clocks up to 2 GHz the search ends
  // if and only if EndsInInt.
  lemma CalcEndsIff(sec: int, usec: int, freq: int, maxcnt: int, x: real)
    requires sec < 0x8000_0000 && usec < 0x8000_0000 && 0 < freq <= 2000000000 && maxcnt >= 0
    requires InUnits(Seconds(sec, usec), freq, x) && x >= 1.0
    ensures StopsInInt(x, freq, maxcnt) <==> EndsInInt(x, freq, maxcnt)
  {
    var most, f := 2147486000.0, freq as real;
    MulLeqReal(Seconds(sec, usec), most, f);
    assert x <= most * f <= most * 2000000000.0;
    EndsIff(x, freq, maxcnt);
  }

  // For the RK3562 timers (24 MHz, 32-bit counter) and any time a struct rt_hwtimerval can
  // hold, the search stops far below the limit of an int.
  lemma LoopCounterFitsInt(sec: int, usec: int, x: real) returns (stop: int)
    requires sec < 0x8000_0000 && usec < 0x8000_0000
    requires InUnits(Seconds(sec, usec), 24000000, x) && x >= 1.0
    ensures FirstStop(x, 24000000, 0xFFFF_FFFF, stop) && stop <= 227100003 < INT_MAX
  {
    assert x < 51539660000000000.0;
    var i := StopsByFloor(x, 24000000, 0xFFFF_FFFF);
    stop := LeastStop(x, 24000000, 0xFFFF_FFFF, i);
    FirstStopNeverRises(x, 24000000, 0xFFFF_FFFF, stop);
    var s := CeilRoot(x);
    RootBound(s, 227100000, x.Floor);
    if s >= 4 {
      MulLeq(s, 0xFFFF_FFFF, s);
      StopsNearRoot(x, 0xFFFF_FFFF, stop - 1, s);
    } else {
      MulLeq(s, 3, s);
    }
  }
}

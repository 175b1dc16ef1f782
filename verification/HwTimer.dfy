// The hardware timer framework of hwtimer.c on its Rockchip backend drv_hwtimer.c: write,
// the interrupt handler and read-back, over a down-counter that reloads itself.
module HwTimer {
  import opened Arithmetic
  import opened TickSplit
  import opened TimeoutSearch

  datatype Mode = OneShot | Period

  // rt_hwtimer_t and its backend. `load` and `current` are TIMER_LOAD_COUNT0 and
  // TIMER_CURRENT_VALUE0, `enabled` the enable bit, `userMode` the hardware one-shot mode.
  // `indications` and `stops` count the calls of rx_indicate and of ops->stop.
  datatype Timer = Timer(
    freq: int, maxcnt: int, overflow: int, periodSec: real, cycles: int, reload: int, mode: Mode,
    load: int, current: int, enabled: bool, userMode: bool, indications: nat, stops: nat)

  const UINT32: int := 0x1_0000_0000

  // `++` on an rt_int32_t.
  function Successor(x: int): int {
    if x == 0x7FFF_FFFF then -0x8000_0000 else x + 1
  }

  // rk_stop.
  function StopNext(t: Timer): Timer {
    t.(enabled := false, stops := t.stops + 1)
  }

  // rk_start; enabling the timer loads the counter.
  function StartNext(t: Timer, cnt: int, mode: Mode): Timer {
    var load := (cnt - 1) % UINT32;
    t.(load := load, current := load, userMode := mode == OneShot, enabled := true)
  }

  // rt_device_hwtimer_isr.
  function IsrNext(t: Timer): Timer {
    var cycles := if t.cycles != 0 then t.cycles - 1 else 0;
    var u := t.(overflow := Successor(t.overflow), cycles := cycles);
    if cycles == 0 then
      var v := u.(cycles := t.reload);
      var w := if t.mode == OneShot then StopNext(v) else v;
      w.(indications := t.indications + 1)
    else u
  }

  // One period of the counter clock. At 0 the counter interrupts; it then starts over from
  // `load`, except in user mode, where it stays at 0 and counts no more.
  function TickNext(t: Timer): Timer {
    if !t.enabled then t
    else if t.current > 0 then t.(current := t.current - 1)
    else if t.userMode then IsrNext(t).(enabled := false)
    else IsrNext(t.(current := t.load))
  }

  function Ticks(t: Timer, n: nat): (r: Timer)
    ensures r.freq == t.freq
  {
    if n == 0 then t else TickNext(Ticks(t, n - 1))
  }

  // rt_hwtimer_write once timeout_calc has returned r.
  function WriteNext(t: Timer, r: Timeout): Timer
    requires r.Split?
  {
    var u := StopNext(t).(overflow := 0, cycles := r.cycles, reload := r.cycles, periodSec := r.periodSec);
    StartNext(u, r.counter, if u.cycles <= 1 && u.mode == OneShot then OneShot else Period)
  }

  // A write with no rounds and any period and counter value.
  ghost predicate StartedAnyhow(t: Timer, u: Timer) {
    exists r: Timeout :: r.Split? && r.cycles == 0 && 0 <= r.counter < UINT32 && u == WriteNext(t, r)
  }

  // The elapsed time that rt_hwtimer_read computes, before its conversion to a struct.
  function ReadTime(t: Timer): real
    requires t.freq > 0
  {
    var cnt := (CounterOf(t.periodSec, t.freq) - t.current) % UINT32;
    var overflow := if t.mode == OneShot then 0 else t.overflow;
    overflow as real * t.periodSec + cnt as real / t.freq as real
  }

  // Seconds and microseconds that hold `time`, cut toward zero to whole microseconds.
  predicate Reports(sec: int, usec: int, time: real) {
    if time >= 0.0 then
      && 0 <= usec < 1000000
      && sec as real + usec as real / 1000000.0 <= time < sec as real + (usec + 1) as real / 1000000.0
    else
      && -1000000 < usec <= 0
      && sec as real + (usec - 1) as real / 1000000.0 < time <= sec as real + usec as real / 1000000.0
  }

  type Int32 = x: int | -0x8000_0000 <= x < 0x8000_0000

  // A C conversion to an integer type cuts toward zero.
  function Truncated(x: real): int {
    if x >= 0.0 then x.Floor else -(-x).Floor
  }

  // `(rt_int32_t)x`: undefined, here any value, if the result does not fit.
  method ToInt32(x: real) returns (n: Int32)
    ensures -0x8000_0000 <= Truncated(x) < 0x8000_0000 ==> n == Truncated(x)
  {
    var i := Truncated(x);
    if -0x8000_0000 <= i < 0x8000_0000 {
      n := i;
    } else {
      n := *;
    }
  }

  // The two conversions at the end of rt_hwtimer_read.
  method ToTimeval(t: real) returns (sec: Int32, usec: Int32)
    ensures -2147483648.0 < t < 2147483648.0 ==> Reports(sec, usec, t)
  {
    sec := ToInt32(t);
    usec := ToInt32((t - sec as real) * 1000000.0);
  }

  class HwTimer {
    const freq: int
    const maxcnt: int
    var overflow: int
    var periodSec: real
    var cycles: int
    var reload: int
    var mode: Mode
    var load: int
    var current: int
    var enabled: bool
    var userMode: bool
    var indications: nat
    var stops: nat

    function Abs(): Timer
      reads this
    {
      Timer(freq, maxcnt, overflow, periodSec, cycles, reload, mode,
            load, current, enabled, userMode, indications, stops)
    }

    // A registered timer after rt_hwtimer_init, in the mode chosen by HWTIMER_CTRL_MODE_SET.
    constructor (freq: int, maxcnt: int, mode: Mode)
      ensures this.freq == freq && this.maxcnt == maxcnt && this.mode == mode
      ensures !enabled && overflow == 0 && cycles == 0 && indications == 0 && stops == 0
    {
      this.freq, this.maxcnt, this.mode := freq, maxcnt, mode;
      overflow, periodSec, cycles, reload := 0, 0.0, 0, 0;
      load, current, enabled, userMode := 0, 0, false, true;
      indications, stops := 0, 0;
    }

    method Stop()
      modifies this
      ensures Abs() == StopNext(old(Abs()))
    {
      enabled := false;
      stops := stops + 1;
    }

    method Start(cnt: int, opm: Mode)
      modifies this
      ensures Abs() == StartNext(old(Abs()), cnt, opm)
    {
      load := (cnt - 1) % UINT32;
      current := load;
      userMode := opm == OneShot;
      enabled := true;
    }

    // Writes the split r of timeout_calc to the timer and starts it.
    method Begin(r: Timeout)
      requires r.Split?
      modifies this
      ensures var t := old(Abs()).(cycles := r.cycles, reload := r.cycles, periodSec := r.periodSec);
        Abs() == StartNext(t, r.counter, if t.cycles <= 1 && t.mode == OneShot then OneShot else Period)
    {
      cycles := r.cycles;
      reload := r.cycles;
      periodSec := r.periodSec;
      var opm := Period;
      if cycles <= 1 && mode == OneShot {
        opm := OneShot;
      }
      Start(r.counter, opm);
    }

    // The end of a write to timer t, which is stopped now.
    method Finish(r: Timeout, ghost t: Timer)
      requires Abs() == StopNext(t).(overflow := 0)
      modifies this
      ensures r.Split? ==> Abs() == WriteNext(t, r)
      ensures r.BadIndex? ==> StartedAnyhow(t, Abs())
      ensures r.IntOverflow? ==> Abs() == StopNext(t).(overflow := 0)
    {
      if r.Split? {
        Begin(r);
      } else if r.BadIndex? {
        var p: real := *;
        var c :| 0 <= c < UINT32;
        var any := Split(0, p, c);
        Begin(any);
        assert Abs() == WriteNext(t, any);
      }
    }

    // With index 0 the C code goes on with an infinity, whose conversion to a counter value
    // is undefined: here any period and counter. After an overflow of the loop counter
    // nothing is defined; the timer is then left as it was stopped.
    method Write(sec: int, usec: int) returns (ok: bool, ghost r: Timeout, ghost x: real, ghost stop: int)
      requires freq > 0 && maxcnt >= 0
      modifies this
      ensures InUnits(Seconds(sec, usec), freq, x)
      ensures Result(Seconds(sec, usec), freq, maxcnt, x, r, stop)
      ensures ok <==> r.Split?
      ensures sec * MICROS + usec <= maxcnt * MICROS && freq <= 1000000000 && 2 <= maxcnt < UINT32 ==> ok
      ensures r.Split? ==> Answers((sec * MICROS + usec) * freq, maxcnt, r.cycles, r.counter)
      ensures r.Split? ==> Abs() == WriteNext(old(Abs()), r)
      ensures r.BadIndex? ==> StartedAnyhow(old(Abs()), Abs())
      ensures r.IntOverflow? ==> Abs() == StopNext(old(Abs())).(overflow := 0)
    {
      ghost var t := Abs();
      Stop();
      overflow := 0;
      var split;
      split, x, stop := TimeoutCalc(Seconds(sec, usec), freq, maxcnt);
      r := split;
      ok := split.Split?;
      if ok { SplitAnswers(sec, usec, freq, maxcnt, x, split, stop); }
      SecondsAtMost(sec, usec, maxcnt);
      Finish(split, t);
    }

    method Isr()
      modifies this
      ensures Abs() == IsrNext(old(Abs()))
    {
      overflow := Successor(overflow);
      if cycles != 0 {
        cycles := cycles - 1;
      }
      if cycles == 0 {
        cycles := reload;
        if mode == OneShot {
          Stop();
        }
        indications := indications + 1;
      }
    }

    method Tick()
      modifies this
      ensures Abs() == TickNext(old(Abs()))
    {
      if enabled {
        if current > 0 {
          current := current - 1;
        } else if userMode {
          Isr();
          enabled := false;
        } else {
          current := load;
          Isr();
        }
      }
    }

    method Run(n: nat)
      modifies this
      ensures Abs() == Ticks(old(Abs()), n)
    {
      ghost var start := Abs();
      for i := 0 to n
        invariant Abs() == Ticks(start, i)
      {
        Tick();
      }
    }

    // rt_hwtimer_read. A time can be negative only once overflow has wrapped.
    method Read() returns (sec: Int32, usec: Int32)
      requires freq > 0
      ensures var t := ReadTime(Abs()); -2147483648.0 < t < 2147483648.0 ==> Reports(sec, usec, t)
    {
      var cnt := current;
      var over := overflow;
      cnt := (CounterOf(periodSec, freq) - cnt) % UINT32;
      if mode == OneShot {
        over := 0;
      }
      var t := over as real * periodSec + cnt as real / freq as real;
      sec, usec := ToTimeval(t);
    }
  }

  lemma SecondsAtMost(sec: int, usec: int, maxcnt: int)
    ensures Seconds(sec, usec) <= maxcnt as real <==> sec * MICROS + usec <= maxcnt * MICROS
  {
    assert Seconds(sec, usec) * 1000000.0 == (sec * MICROS + usec) as real;
  }

  lemma InMicros(s: int, u: int, t: real, n: int)
    requires t * 1000000.0 == n as real
    ensures s as real + u as real / 1000000.0 <= t <==> s * MICROS + u <= n
    ensures t < s as real + u as real / 1000000.0 <==> n < s * MICROS + u
  {
    var v := s as real + u as real / 1000000.0;
    assert v * 1000000.0 == (s * MICROS + u) as real;
  }

  // The time that a write requests is reported as it was requested, and as nothing else.
  lemma RequestIsReported(sec: int, usec: int, s: int, u: int)
    requires sec >= 0 && 0 <= usec < MICROS
    ensures Reports(s, u, Seconds(sec, usec)) <==> s == sec && u == usec
  {
    var t, n := Seconds(sec, usec), sec * MICROS + usec;
    assert t * 1000000.0 == n as real;
    InMicros(s, u, t, n);
    InMicros(s, u + 1, t, n);
  }

  // ----- Arithmetic of nested periods -----------------------------------------------------------

  lemma NextQuotient(n: nat, c: int)
    requires c >= 1
    ensures (n + 1) / c == n / c + (if n % c == c - 1 then 1 else 0)
    ensures (n + 1) % c == (if n % c == c - 1 then 0 else n % c + 1)
  {
    var k, r := n / c, n % c;
    assert n == k * c + r;
    if r == c - 1 {
      assert n + 1 == (k + 1) * c;
      QuotientIs(n + 1, c, k + 1, 0);
    } else {
      QuotientIs(n + 1, c, k, r + 1);
    }
  }

  lemma Regroup(j: int, m: int, s: int, c: int)
    ensures (j * m + s) * c == j * (c * m) + s * c
  {
    assert (j * m + s) * c == (j * m) * c + s * c;
    assert (j * m) * c == j * (m * c);
  }

  lemma DigitBound(s: int, r: int, c: int, m: int)
    requires 0 <= s < m && 0 <= r < c
    ensures 0 <= s * c + r < c * m
  {
    MulLeq(0, s, c);
    MulLeq(s + 1, m, c);
  }

  lemma NestedQuotient(n: nat, c: int, m: int)
    requires c >= 1 && m >= 1
    ensures c * m >= 1 && n / c / m == n / (c * m)
  {
    var k, r := n / c, n % c;
    var j, s := k / m, k % m;
    assert n == k * c + r && k == j * m + s;
    Regroup(j, m, s, c);
    DigitBound(s, r, c, m);
    QuotientIs(n, c * m, j, s * c + r);
  }

  // ----- Period mode -------------------------------------------------------------------------------

  // The state a write leaves: counting from a full counter, nothing expired yet.
  predicate JustWritten(t: Timer) {
    && t.freq > 0 && t.overflow == 0 && t.cycles == t.reload >= 0
    && t.enabled && 0 <= t.load == t.current < UINT32
    && (t.userMode <==> t.reload <= 1 && t.mode == OneShot)
  }

  lemma WriteStarts(t: Timer, r: Timeout)
    requires t.freq > 0 && r.Split? && r.cycles >= 0 && 1 <= r.counter <= UINT32
    ensures var t' := WriteNext(t, r);
      JustWritten(t') && t'.load + 1 == r.counter && t'.reload == r.cycles && t'.mode == t.mode
      && t'.indications == t.indications && t'.stops == t.stops + 1
      && t'.periodSec == r.periodSec && t'.freq == t.freq
  {
  }

  function Max(a: int, b: int): int { if a < b then b else a }

  // The overflow field after k interrupts.
  function OverflowAfter(k: nat): int {
    if k == 0 then 0 else Successor(OverflowAfter(k - 1))
  }

  lemma {:induction false} OverflowCounts(k: nat)
    requires k < 0x8000_0000
    ensures OverflowAfter(k) == k
  {
    if k > 0 { OverflowCounts(k - 1); }
  }

  // In general it wraps around in 32 bits.
  lemma {:induction false} OverflowWraps(k: nat)
    ensures OverflowAfter(k) == (k + 0x8000_0000) % UINT32 - 0x8000_0000
  {
    if k > 0 {
      OverflowWraps(k - 1);
      NextQuotient(k - 1 + 0x8000_0000, UINT32);
    }
  }

  // The timer after k expiries and rem more ticks.
  function PeriodAt(t: Timer, k: nat, rem: nat): Timer {
    var m := Max(t.reload, 1);
    t.(overflow := OverflowAfter(k), current := t.load - rem,
       cycles := if t.reload == 0 then 0 else t.reload - k % m, indications := t.indications + k / m)
  }

  lemma PeriodTick(t: Timer, k: nat, rem: nat)
    requires JustWritten(t) && t.mode == Period && rem <= t.load
    ensures TickNext(PeriodAt(t, k, rem)) ==
      (if rem < t.load then PeriodAt(t, k, rem + 1) else PeriodAt(t, k + 1, 0))
  {
    NextQuotient(k, Max(t.reload, 1));
  }

  lemma {:induction false} PeriodRun(t: Timer, n: nat, k: nat, rem: nat)
    requires JustWritten(t) && t.mode == Period && rem <= t.load && n == k * (t.load + 1) + rem
    ensures Ticks(t, n) == PeriodAt(t, k, rem)
    decreases n
  {
    var c := t.load + 1;
    if rem > 0 {
      PeriodRun(t, n - 1, k, rem - 1);
      PeriodTick(t, k, rem - 1);
    } else if k > 0 {
      assert n - 1 == (k - 1) * c + (c - 1);
      PeriodRun(t, n - 1, k - 1, c - 1);
      PeriodTick(t, k - 1, c - 1);
    } else {
      QuotientIs(0, Max(t.reload, 1), 0, 0);
    }
  }

  // n clock ticks after a write in period mode: every load + 1 ticks the counter expires,
  // and every max(reload, 1) expiries rx_indicate is called.
  lemma PeriodTicks(t: Timer, n: nat)
    requires JustWritten(t) && t.mode == Period
    ensures Ticks(t, n) == PeriodAt(t, n / (t.load + 1), n % (t.load + 1))
  {
    WholeTicks(n, t.load + 1);
    PeriodRun(t, n, n / (t.load + 1), n % (t.load + 1));
  }

  // The k-th indication comes exactly k * max(reload, 1) * counter ticks after the start.
  lemma IndicationTimes(t: Timer, n: nat)
    requires JustWritten(t) && t.mode == Period
    ensures var p := (t.load + 1) * Max(t.reload, 1);
      p >= 1 && Ticks(t, n).indications == t.indications + n / p && Ticks(t, n).enabled
  {
    PeriodTicks(t, n);
    NestedQuotient(n, t.load + 1, Max(t.reload, 1));
  }

  // The value loaded by a write is one less than the whole ticks of period_sec.
  predicate LoadMatches(t: Timer) {
    t.freq > 0 && t.load + 1 == CounterOf(t.periodSec, t.freq) < UINT32
  }

  // From the request to the indications: in period mode a request of x ticks is answered by
  // an indication every cycles * counter ticks, which is never more than x.
  lemma PeriodicRequest(t: Timer, tvSec: real, x: real, r: Timeout, stop: int, n: nat) returns (p: int)
    requires t.freq > 0 && t.maxcnt < UINT32 && t.mode == Period && x >= 1.0
    requires Result(tvSec, t.freq, t.maxcnt, x, r, stop) && r.Split?
    ensures 1 <= p && p as real <= x
    ensures p == r.counter * r.cycles
    ensures var u := WriteNext(t, r);
      JustWritten(u) && LoadMatches(u) && Ticks(u, n).indications == t.indications + n / p
  {
    UsableSplit(tvSec, t.freq, t.maxcnt, x, r, stop);
    p := r.counter * r.cycles;
    SplitRuns(t, r, n);
  }

  lemma SplitRuns(t: Timer, r: Timeout, n: nat)
    requires t.freq > 0 && t.mode == Period && r.Split? && r.cycles >= 1
    requires 1 <= r.counter == CounterOf(r.periodSec, t.freq) < UINT32
    ensures var p := r.counter * r.cycles; var u := WriteNext(t, r);
      p >= 1 && JustWritten(u) && LoadMatches(u) && Ticks(u, n).indications == t.indications + n / p
  {
    WriteStarts(t, r);
    IndicationTimes(WriteNext(t, r), n);
  }

  // ----- One-shot mode --------------------------------------------------------------------------------

  // The timer after k expiries and rem more ticks, short of its last expiry.
  function OneShotAt(t: Timer, k: nat, rem: int): Timer {
    t.(overflow := OverflowAfter(k), current := t.load - rem, cycles := if t.reload == 0 then 0 else t.reload - k)
  }

  // The timer after its last expiry: stopped, with one indication, and ready for as many
  // rounds as before. In user mode the counter has stayed at 0.
  function Fired(t: Timer): Timer {
    t.(overflow := OverflowAfter(Max(t.reload, 1)), cycles := t.reload, current := if t.userMode then 0 else t.load,
       enabled := false, indications := t.indications + 1, stops := t.stops + 1)
  }

  lemma OneShotTick(t: Timer, k: nat, rem: int)
    requires JustWritten(t) && t.mode == OneShot
    requires k < Max(t.reload, 1) && 0 <= rem <= t.load
    ensures var u := TickNext(OneShotAt(t, k, rem));
      if rem < t.load then u == OneShotAt(t, k, rem + 1)
      else if k + 1 < Max(t.reload, 1) then u == OneShotAt(t, k + 1, 0)
      else u == Fired(t)
  {
  }

  lemma {:induction false} OneShotRun(t: Timer, n: nat, k: nat, rem: nat)
    requires JustWritten(t) && t.mode == OneShot && rem <= t.load && n == k * (t.load + 1) + rem
    ensures if k < Max(t.reload, 1) then Ticks(t, n) == OneShotAt(t, k, rem)
            else Ticks(t, n) == Fired(t)
    decreases n
  {
    var c := t.load + 1;
    if rem > 0 {
      OneShotRun(t, n - 1, k, rem - 1);
      if k < Max(t.reload, 1) { OneShotTick(t, k, rem - 1); }
    } else if k > 0 {
      assert n - 1 == (k - 1) * c + (c - 1);
      OneShotRun(t, n - 1, k - 1, c - 1);
      if k - 1 < Max(t.reload, 1) { OneShotTick(t, k - 1, c - 1); }
    }
  }

  // Before the last of its max(reload, 1) expiries a one-shot timer runs like a periodic
  // one; with that expiry it has called rx_indicate and stop once, and it does nothing more.
  lemma OneShotTicks(t: Timer, n: nat)
    requires JustWritten(t) && t.mode == OneShot
    ensures var c := t.load + 1; var m := Max(t.reload, 1);
      if n / c < m then Ticks(t, n) == OneShotAt(t, n / c, n % c)
      else Ticks(t, n) == Fired(t)
  {
    WholeTicks(n, t.load + 1);
    OneShotRun(t, n, n / (t.load + 1), n % (t.load + 1));
  }

  lemma QuotientBelow(n: nat, c: int, m: int)
    requires c >= 1
    ensures n / c < m <==> n < c * m
  {
    var k := n / c;
    assert n == k * c + n % c;
    if k < m { MulLeq(k + 1, m, c); } else { MulLeq(m, k, c); }
  }

  // So there is exactly one indication per write, from tick max(reload, 1) * counter on, and
  // exactly one more stop, made with it.
  lemma OneIndicationPerWrite(t: Timer, n: nat)
    requires JustWritten(t) && t.mode == OneShot
    ensures var p := (t.load + 1) * Max(t.reload, 1); var u := Ticks(t, n); var fired := if n >= p then 1 else 0;
      u.indications == t.indications + fired && u.stops == t.stops + fired && (u.enabled <==> n < p)
  {
    OneShotTicks(t, n);
    QuotientBelow(n, t.load + 1, Max(t.reload, 1));
  }

  // ----- Read-back ----------------------------------------------------------------------------------------

  // `time` is ahead of n ticks by one tick at least and by `overflow` + 1 ticks at most.
  predicate Ahead(time: real, n: int, overflow: int, freq: int)
    requires freq > 0
  {
    var f := freq as real;
    var elapsed := n as real / f;
    elapsed + 1.0 / f <= time <= elapsed + (overflow + 1) as real / f
  }

  // With k expiries of c ticks and r more ticks, where a period of p seconds is c ticks
  // and `lag` of another.
  lemma ReadArithmetic(k: int, r: int, c: int, p: real, f: real, lag: real)
    requires f > 0.0 && k >= 0 && p * f == c as real + lag && 0.0 <= lag < 1.0
    ensures var time := k as real * p + (r + 1) as real / f; var elapsed := (k * c + r) as real / f;
      elapsed + 1.0 / f <= time <= elapsed + (k + 1) as real / f
  {
    var kr, lost := k as real, k as real * lag;
    var n := (k * c + r) as real;
    var time := kr * p + (r + 1) as real / f;
    assert n == kr * c as real + r as real;
    ScaledTime(kr, p, (r + 1) as real, c as real, f, lag);
    assert time * f == n + lost + 1.0;
    MulLeqReal(0.0, lag, kr);
    MulLeqReal(lag, 1.0, kr);
    ScaledSum(n, 1.0, f);
    ScaledSum(n, (k + 1) as real, f);
    Cancel(n / f + 1.0 / f, time, f);
    Cancel(time, n / f + (k + 1) as real / f, f);
  }

  lemma Scaled(n: real, f: real)
    requires f > 0.0
    ensures n / f * f == n
  {
  }

  lemma Distribute(a: real, b: real, f: real)
    ensures (a + b) * f == a * f + b * f
  {
  }

  lemma ScaledSum(n: real, d: real, f: real)
    requires f > 0.0
    ensures (n / f + d / f) * f == n + d
  {
    Scaled(n, f);
    Scaled(d, f);
    Distribute(n / f, d / f, f);
  }

  lemma ScaledTime(k: real, p: real, m: real, c: real, f: real, lag: real)
    requires f > 0.0 && p * f == c + lag
    ensures (k * p + m / f) * f == k * c + k * lag + m
  {
    Scaled(m, f);
    Distribute(k * p, m / f, f);
    Distribute(c, lag, k);
    assert k * p * f == k * (p * f);
  }

  lemma ReadTimeAt(t: Timer, k: nat, rem: nat)
    requires LoadMatches(t) && t.mode == Period && rem <= t.load && k < 0x8000_0000
    ensures ReadTime(PeriodAt(t, k, rem)) == k as real * t.periodSec + (rem + 1) as real / t.freq as real
  {
    var u := PeriodAt(t, k, rem);
    OverflowCounts(k);
    assert CounterOf(u.periodSec, u.freq) - u.current == rem + 1;
    SmallModulo(rem + 1);
  }

  lemma SmallModulo(x: int)
    requires 0 <= x < UINT32
    ensures x % UINT32 == x
  {
  }

  // What a period has beyond its whole ticks.
  lemma Lag(t: Timer) returns (lag: real)
    requires LoadMatches(t)
    ensures t.periodSec * t.freq as real == (t.load + 1) as real + lag && 0.0 <= lag < 1.0
  {
    lag := t.periodSec * t.freq as real - (t.load + 1) as real;
  }

  lemma AheadArithmetic(time: real, k: nat, r: int, c: int, p: real, freq: int, lag: real)
    requires freq > 0 && p * freq as real == c as real + lag && 0.0 <= lag < 1.0
    requires time == k as real * p + (r + 1) as real / freq as real
    ensures Ahead(time, k * c + r, k, freq)
  {
    ReadArithmetic(k, r, c, p, freq as real, lag);
  }

  lemma ReadAtIsClose(t: Timer, k: nat, rem: nat)
    requires LoadMatches(t) && t.mode == Period && rem <= t.load && k < 0x8000_0000
    ensures Ahead(ReadTime(PeriodAt(t, k, rem)), k * (t.load + 1) + rem, k, t.freq)
  {
    var lag := Lag(t);
    ReadTimeAt(t, k, rem);
    AheadArithmetic(ReadTime(PeriodAt(t, k, rem)), k, rem, t.load + 1, t.periodSec, t.freq, lag);
  }

  // n ticks after a write in period mode, the time computed by a read is ahead of the true
  // time n / freq by one tick and by what the expiries so far have lost, which is less than
  // a tick each.
  lemma ReadIsClose(t: Timer, n: nat)
    requires JustWritten(t) && LoadMatches(t) && t.mode == Period && n / (t.load + 1) < 0x8000_0000
    ensures var u := Ticks(t, n);
      u.freq == t.freq && u.overflow == n / (t.load + 1) && Ahead(ReadTime(u), n, u.overflow, t.freq)
  {
    var c := t.load + 1;
    PeriodTicks(t, n);
    WholeTicks(n, c);
    OverflowCounts(n / c);
    ReadAtIsClose(t, n / c, n % c);
  }

  lemma WholeTicks(n: nat, c: int)
    requires c >= 1
    ensures n == n / c * c + n % c && n / c >= 0
  {
  }

  // In one-shot mode a read starts over with every expiry: before the last one it is one tick
  // ahead of the time since the expiry before.
  lemma OneShotRead(t: Timer, n: nat)
    requires JustWritten(t) && LoadMatches(t) && t.mode == OneShot && n / (t.load + 1) < Max(t.reload, 1)
    ensures ReadTime(Ticks(t, n)) == (n % (t.load + 1) + 1) as real / t.freq as real
  {
    var rem := n % (t.load + 1);
    OneShotTicks(t, n);
    WholeTicks(n, t.load + 1);
    SmallModulo(rem + 1);
    assert CounterOf(t.periodSec, t.freq) - (t.load - rem) == rem + 1;
  }

  // What a read reports n ticks after such a write: at most overflow + 1 ticks more than the
  // true time, and short of it by less than a microsecond.
  lemma ReportedTimeIsClose(t: Timer, n: nat, sec: int, usec: int)
    requires JustWritten(t) && LoadMatches(t) && t.mode == Period && n / (t.load + 1) < 0x8000_0000
    requires Reports(sec, usec, ReadTime(Ticks(t, n)))
    ensures var told := sec as real + usec as real / 1000000.0; var f := t.freq as real;
      var elapsed := n as real / f;
      elapsed - 1.0 / 1000000.0 < told <= elapsed + (Ticks(t, n).overflow + 1) as real / f
  {
    ReadIsClose(t, n);
    assert 1.0 / t.freq as real > 0.0;
  }
}

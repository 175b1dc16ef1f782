// The PWM driver drv_rockchip_pwm.c under the framework pwm.c: nanoseconds to clock ticks
// and back in 32- and 64-bit arithmetic, and the read-modify-write of _pwm_write.
module Pwm {
  import opened Arithmetic
  import opened CommonDivisors

  const U32: int := 0x1_0000_0000
  const U64: int := 0x1_0000_0000_0000_0000
  const UNIT: int := 1000000000

  type Word = x: int | 0 <= x < 0x1_0000_0000

  // `(rt_uint64_t)freq * ns / PWM_UNIT` stored in a rt_uint32_t.
  function ToTicks(freq: Word, ns: Word): Word {
    (freq * ns % U64 / UNIT) % U32
  }

  // `(rt_uint64_t)ticks * PWM_UNIT / freq` stored in a rt_uint32_t.
  function ToNanos(freq: Word, ticks: Word): Word
    requires freq > 0
  {
    (ticks * UNIT % U64 / freq) % U32
  }

  datatype CtrlMode = OneShotMode | ContinuousMode | CaptureMode

  // The bits of PWM_CTRL.
  datatype Ctrl = Ctrl(en: bool, mode: CtrlMode, dutyPol: bool, inactivePol: bool,
                       outputMode: bool, conlock: bool, forceClk: bool)

  // PWM_PERIOD_HPR, PWM_DUTY_LPR and PWM_CTRL.
  datatype Regs = Regs(period: Word, duty: Word, ctrl: Ctrl)

  datatype Config = Config(period: Word, pulse: Word)

  // The operations that reach the registers; Write is _pwm_write of the framework.
  datatype Command = Set(cfg: Config) | Get | Enable | Disable | Write(pulse: Word)

  function SetNext(freq: Word, r: Regs, cfg: Config): Regs {
    if cfg.pulse > cfg.period then r
    else Regs(ToTicks(freq, cfg.period), ToTicks(freq, cfg.pulse),
              r.ctrl.(mode := ContinuousMode, dutyPol := true, inactivePol := true,
                      outputMode := false, conlock := false))
  }

  function GetOf(freq: Word, r: Regs): Config
    requires freq > 0
  {
    Config(ToNanos(freq, r.period), ToNanos(freq, r.duty))
  }

  function WriteNext(freq: Word, r: Regs, pulse: Word): Regs
    requires freq > 0
  {
    SetNext(freq, r, GetOf(freq, r).(pulse := pulse))
  }

  function Next(freq: Word, r: Regs, cmd: Command): Regs
    requires freq > 0
  {
    match cmd
    case Set(cfg) => SetNext(freq, r, cfg)
    case Get => r
    case Enable => r.(ctrl := r.ctrl.(en := true, forceClk := true, outputMode := true))
    case Disable => r.(ctrl := r.ctrl.(en := false, mode := OneShotMode, outputMode := false, forceClk := false))
    case Write(pulse) => WriteNext(freq, r, pulse)
  }

  function Run(freq: Word, r: Regs, cmds: seq<Command>): Regs
    requires freq > 0
    decreases |cmds|
  {
    if cmds == [] then r else Run(freq, Next(freq, r, cmds[0]), cmds[1..])
  }

  class PwmDevice {
    const freq: Word
    var period: Word
    var duty: Word
    var ctrl: Ctrl

    function Abs(): Regs
      reads this
    {
      Regs(period, duty, ctrl)
    }

    constructor (freq: Word, period: Word, duty: Word, ctrl: Ctrl)
      ensures this.freq == freq && Abs() == Regs(period, duty, ctrl)
    {
      this.freq, this.period, this.duty, this.ctrl := freq, period, duty, ctrl;
    }

    method PwmEnable()
      modifies this
      ensures freq > 0 ==> Abs() == Next(freq, old(Abs()), Enable)
    {
      var reg := ctrl;
      reg := reg.(en := true, forceClk := true, outputMode := true);
      ctrl := reg;
    }

    method PwmDisable()
      modifies this
      ensures freq > 0 ==> Abs() == Next(freq, old(Abs()), Disable)
    {
      var reg := ctrl;
      reg := reg.(mode := OneShotMode, outputMode := false, forceClk := false, en := false);
      ctrl := reg;
    }

    // PWM_PERIOD_HPR and PWM_DUTY_LPR are written only while the configuration is locked.
    method PutPeriod(ticks: Word)
      requires ctrl.conlock
      modifies this`period
      ensures period == ticks
    {
      period := ticks;
    }

    method PutDuty(ticks: Word)
      requires ctrl.conlock
      modifies this`duty
      ensures duty == ticks
    {
      duty := ticks;
    }

    method SetConfig(cfg: Config) returns (ok: bool)
      modifies this
      ensures ok <==> cfg.pulse <= cfg.period
      ensures Abs() == SetNext(freq, old(Abs()), cfg)
    {
      if cfg.pulse > cfg.period {
        return false;
      }
      ctrl := ctrl.(conlock := true);
      PutPeriod(ToTicks(freq, cfg.period));
      PutDuty(ToTicks(freq, cfg.pulse));
      ctrl := ctrl.(mode := ContinuousMode);
      ctrl := ctrl.(dutyPol := true, inactivePol := true, outputMode := false);
      ctrl := ctrl.(conlock := false);
      ok := true;
    }

    method GetConfig() returns (cfg: Config)
      requires freq > 0
      ensures cfg == GetOf(freq, Abs())
    {
      cfg := Config(ToNanos(freq, period), ToNanos(freq, duty));
    }

    // _pwm_read.
    method Read() returns (pulse: Word)
      requires freq > 0
      ensures pulse == GetOf(freq, Abs()).pulse
    {
      var configuration := GetConfig();
      pulse := configuration.pulse;
    }

    // _pwm_write; ok is false where the C code returns 0.
    method WritePulse(pulse: Word) returns (ok: bool)
      requires freq > 0
      modifies this
      ensures ok <==> pulse <= GetOf(freq, old(Abs())).period
      ensures Abs() == WriteNext(freq, old(Abs()), pulse)
    {
      var configuration := GetConfig();
      configuration := configuration.(pulse := pulse);
      ok := SetConfig(configuration);
    }
  }

  // ----- Widths -----------------------------------------------------------------------------------

  lemma DivMono(a: int, b: int, c: int)
    requires c >= 1 && a <= b
    ensures a / c <= b / c
  {
    assert a == c * (a / c) + a % c && b == c * (b / c) + b % c;
    if a / c > b / c { MulLeq(b / c + 1, a / c, c); }
  }

  // 64 bits hold every product of two words, so only the store to 32 bits can cut.
  lemma ProductsFit(a: Word, b: Word)
    ensures 0 <= a * b < U64
  {
    MulLeq(0, a, b);
    MulLeq(a, U32 - 1, b);
    MulLeq(b, U32 - 1, U32 - 1);
  }

  lemma TicksExact(freq: Word, ns: Word)
    ensures ToTicks(freq, ns) == (freq * ns / UNIT) % U32
    ensures freq <= UNIT ==> ToTicks(freq, ns) == freq * ns / UNIT <= ns
  {
    var n := freq * ns;
    ProductsFit(freq, ns);
    SmallModulo(n, U64);
    if freq <= UNIT {
      TicksAtMost(n, freq, ns);
      SmallModulo(n / UNIT, U32);
    }
  }

  lemma SmallModulo(x: int, m: int)
    requires 0 <= x < m
    ensures x % m == x
  {
  }

  lemma TicksAtMost(n: int, freq: int, ns: int)
    requires n == freq * ns && 0 <= freq <= UNIT && ns >= 0
    ensures 0 <= n / UNIT <= ns
  {
    MulLeq(freq, UNIT, ns);
    MulLeq(0, freq, ns);
  }

  // The ticks in a register that a GET can report in 32 bits of nanoseconds.
  predicate InRange(freq: Word, ticks: Word)
    requires freq > 0
  {
    ticks * UNIT / freq < U32
  }

  lemma NanosExact(freq: Word, ticks: Word)
    requires freq > 0
    ensures ticks * UNIT < U64
    ensures InRange(freq, ticks) ==> ToNanos(freq, ticks) == ticks * UNIT / freq
  {
    DivNonNegative(ticks * UNIT, freq);
  }

  lemma DivNonNegative(a: int, c: int)
    requires a >= 0 && c >= 1
    ensures a / c >= 0
  {
    DivMono(0, a, c);
  }

  // ----- SET, then GET --------------------------------------------------------------------------------

  // With 0 < freq <= 1 GHz a time that is set and read back never grows and falls short by
  // less than 10^9/freq + 1 ns: freq * (ns - got) < 10^9 + freq.
  lemma SetThenGet(freq: Word, ns: Word)
    requires 0 < freq <= UNIT
    ensures var h := ToTicks(freq, ns); var got := ToNanos(freq, h);
      InRange(freq, h) && got <= ns && freq * (ns - got) < UNIT + freq
  {
    var h := ToTicks(freq, ns);
    TicksExact(freq, ns);
    var n := freq * ns;
    assert n == h * UNIT + n % UNIT;
    var q := h * UNIT / freq;
    assert h * UNIT == q * freq + (h * UNIT) % freq;
    DivMono(h * UNIT, ns * freq, freq);
    QuotientIs(ns * freq, freq, ns, 0);
    NanosExact(freq, h);
    assert freq * (ns - q) == n - q * freq;
  }

  // `got` is what is read back of `want`.
  predicate Close(freq: Word, want: Word, got: Word) {
    got <= want && freq * (want - got) < UNIT + freq
  }

  // The commands that the driver does not refuse.
  predicate Accepts(freq: Word, r: Regs, cmd: Command)
    requires freq > 0
  {
    match cmd
    case Set(cfg) => cfg.pulse <= cfg.period
    case Write(pulse) => pulse <= GetOf(freq, r).period
    case _ => true
  }

  // A SET is read back by a GET, period and pulse each within that bound; a refused one
  // changes nothing. The same goes for the pulse of a write.
  lemma SetIsRead(freq: Word, r: Regs, cfg: Config)
    requires 0 < freq <= UNIT
    ensures var r' := Next(freq, r, Set(cfg));
      if cfg.pulse <= cfg.period then
        Close(freq, cfg.period, GetOf(freq, r').period) && Close(freq, cfg.pulse, GetOf(freq, r').pulse)
      else r' == r
  {
    SetThenGet(freq, cfg.period);
    SetThenGet(freq, cfg.pulse);
  }

  lemma WriteIsRead(freq: Word, r: Regs, pulse: Word)
    requires 0 < freq <= UNIT
    ensures var r' := Next(freq, r, Write(pulse));
      if pulse <= GetOf(freq, r).period then Close(freq, pulse, GetOf(freq, r').pulse) else r' == r
  {
    SetThenGet(freq, pulse);
  }

  datatype Option<T> = None | Some(value: T)

  // The pulse of the last SET or write that was accepted.
  function LastPulse(freq: Word, r: Regs, cmds: seq<Command>): Option<Word>
    requires freq > 0
  {
    if cmds == [] then None
    else
      var init, last := cmds[..|cmds| - 1], cmds[|cmds| - 1];
      if last.Set? && Accepts(freq, Run(freq, r, init), last) then Some(last.cfg.pulse)
      else if last.Write? && Accepts(freq, Run(freq, r, init), last) then Some(last.pulse)
      else LastPulse(freq, r, init)
  }

  // So a read after any run returns the last accepted pulse within that bound, whatever was
  // enabled, disabled, read or refused since.
  lemma {:induction false} ReadsLastPulse(freq: Word, r: Regs, cmds: seq<Command>)
    requires 0 < freq <= UNIT
    ensures var got := GetOf(freq, Run(freq, r, cmds)).pulse;
      if LastPulse(freq, r, cmds).Some? then Close(freq, LastPulse(freq, r, cmds).value, got)
      else got == GetOf(freq, r).pulse
    decreases |cmds|
  {
    if cmds != [] {
      var init, last := cmds[..|cmds| - 1], cmds[|cmds| - 1];
      var s := Run(freq, r, init);
      RunSplit(freq, r, cmds);
      ReadsLastPulse(freq, r, init);
      if last.Set? { SetIsRead(freq, s, last.cfg); }
      if last.Write? { WriteIsRead(freq, s, last.pulse); }
    }
  }

  // ----- Duty and period over every run -----------------------------------------------------------------

  // What a SET establishes: the duty is at most the period and the period can be reported.
  predicate Ordered(freq: Word, r: Regs)
    requires freq > 0
  {
    r.duty <= r.period && InRange(freq, r.period)
  }

  lemma TicksMono(freq: Word, a: Word, b: Word)
    requires freq <= UNIT && a <= b
    ensures ToTicks(freq, a) <= ToTicks(freq, b)
  {
    TicksExact(freq, a);
    TicksExact(freq, b);
    MulLeq(a, b, freq);
    DivMono(freq * a, freq * b, UNIT);
  }

  lemma StepKeepsOrder(freq: Word, r: Regs, cmd: Command)
    requires 0 < freq <= UNIT && Ordered(freq, r)
    ensures Ordered(freq, Next(freq, r, cmd))
  {
    if cmd.Set? {
      SetThenGet(freq, cmd.cfg.period);
      if cmd.cfg.pulse <= cmd.cfg.period { TicksMono(freq, cmd.cfg.pulse, cmd.cfg.period); }
    } else if cmd.Write? {
      var period := GetOf(freq, r).period;
      SetThenGet(freq, period);
      if cmd.pulse <= period { TicksMono(freq, cmd.pulse, period); }
    }
  }

  lemma {:induction false} RunKeepsOrder(freq: Word, r: Regs, cmds: seq<Command>)
    requires 0 < freq <= UNIT && Ordered(freq, r)
    ensures Ordered(freq, Run(freq, r, cmds))
    decreases |cmds|
  {
    if cmds != [] {
      StepKeepsOrder(freq, r, cmds[0]);
      RunKeepsOrder(freq, Next(freq, r, cmds[0]), cmds[1..]);
    }
  }

  // Whether the last Enable or Disable was an Enable; `was` if there was neither.
  function LastSwitch(was: bool, cmds: seq<Command>): bool {
    if cmds == [] then was
    else
      var last := cmds[|cmds| - 1];
      last.Enable? || (!last.Disable? && LastSwitch(was, cmds[..|cmds| - 1]))
  }

  lemma {:induction false} RunSplit(freq: Word, r: Regs, cmds: seq<Command>)
    requires freq > 0 && cmds != []
    ensures var k := |cmds| - 1; Run(freq, r, cmds) == Next(freq, Run(freq, r, cmds[..k]), cmds[k])
    decreases |cmds|
  {
    if |cmds| > 1 {
      var k := |cmds| - 1;
      RunSplit(freq, Next(freq, r, cmds[0]), cmds[1..]);
      assert cmds[1..][..k - 1] == cmds[..k][1..];
    }
  }

  // SET, GET and the framework's write leave the enable bit and the clock alone: it is on
  // exactly if the last switch was an Enable, and the output clock is forced with it.
  lemma {:induction false} EnabledByLastSwitch(freq: Word, r: Regs, cmds: seq<Command>)
    requires freq > 0
    ensures Run(freq, r, cmds).ctrl.en == LastSwitch(r.ctrl.en, cmds)
    ensures Run(freq, r, cmds).ctrl.forceClk == LastSwitch(r.ctrl.forceClk, cmds)
    decreases |cmds|
  {
    if cmds != [] {
      RunSplit(freq, r, cmds);
      EnabledByLastSwitch(freq, r, cmds[..|cmds| - 1]);
    }
  }

  // What a command, if accepted, makes of a control field: None if it leaves it alone.
  function ModeOf(cmd: Command): Option<CtrlMode> {
    if cmd.Set? || cmd.Write? then Some(ContinuousMode) else if cmd.Disable? then Some(OneShotMode) else None
  }

  function Output(cmd: Command): Option<bool> {
    if cmd.Enable? then Some(true) else if cmd.Get? then None else Some(false)
  }

  function Configured(cmd: Command): Option<bool> {
    if cmd.Set? || cmd.Write? then Some(true) else None
  }

  // The field after a run in which it was `was` at first.
  function LastOf<T>(freq: Word, r: Regs, cmds: seq<Command>, bit: Command -> Option<T>, was: T): T
    requires freq > 0
  {
    if cmds == [] then was
    else
      var init, last := cmds[..|cmds| - 1], cmds[|cmds| - 1];
      if Accepts(freq, Run(freq, r, init), last) && bit(last).Some? then bit(last).value
      else LastOf(freq, r, init, bit, was)
  }

  // One command, bit by bit.
  lemma ControlStep(freq: Word, r: Regs, cmd: Command)
    requires freq > 0
    ensures var c, d := r.ctrl, Next(freq, r, cmd).ctrl; var on := Accepts(freq, r, cmd);
      && (d.mode == if on && ModeOf(cmd).Some? then ModeOf(cmd).value else c.mode)
      && (d.outputMode == if on && Output(cmd).Some? then Output(cmd).value else c.outputMode)
      && (d.dutyPol == if on && Configured(cmd).Some? then true else c.dutyPol)
      && (d.inactivePol == if on && Configured(cmd).Some? then true else c.inactivePol)
      && (d.conlock == if on && Configured(cmd).Some? then false else c.conlock)
  {
  }

  // The other control bits are those of the last command that has a say in them: the
  // mode, output mode, and the polarities and the unlocking that come with a configuration.
  lemma {:induction false} ModesByLast(freq: Word, r: Regs, cmds: seq<Command>)
    requires freq > 0
    ensures var c, was := Run(freq, r, cmds).ctrl, r.ctrl;
      && c.mode == LastOf(freq, r, cmds, ModeOf, was.mode)
      && c.outputMode == LastOf(freq, r, cmds, Output, was.outputMode)
    decreases |cmds|
  {
    if cmds != [] {
      var init, last := cmds[..|cmds| - 1], cmds[|cmds| - 1];
      RunSplit(freq, r, cmds);
      ControlStep(freq, Run(freq, r, init), last);
      ModesByLast(freq, r, init);
    }
  }

  lemma {:induction false} ConfiguredByLast(freq: Word, r: Regs, cmds: seq<Command>)
    requires freq > 0
    ensures var c, was := Run(freq, r, cmds).ctrl, r.ctrl;
      && c.dutyPol == LastOf(freq, r, cmds, Configured, was.dutyPol)
      && c.inactivePol == LastOf(freq, r, cmds, Configured, was.inactivePol)
      && !c.conlock == LastOf(freq, r, cmds, Configured, !was.conlock)
    decreases |cmds|
  {
    if cmds != [] {
      var init, last := cmds[..|cmds| - 1], cmds[|cmds| - 1];
      RunSplit(freq, r, cmds);
      ControlStep(freq, Run(freq, r, init), last);
      ConfiguredByLast(freq, r, init);
    }
  }

  lemma CeilQuotient(top: int, f: int) returns (p: int, n: int)
    requires top > 0 && f > 0
    ensures n == p * f && top <= n < top + f && p >= 1
  {
    p := (top + f - 1) / f;
    n := p * f;
    assert top + f - 1 == n + (top + f - 1) % f;
    if p < 1 { MulLeq(p, 0, f); }
  }

  // Times the limit of a word, a clock above 1 GHz passes 2^32 ticks.
  lemma PeriodFits(f: Word, p: int, n: int)
    requires f > UNIT && n == p * f && n < U32 * UNIT + f
    ensures p < U32
  {
    MulLeq(UNIT + 1, f, U32 - 1);
    if p >= U32 { MulLeq(U32, p, f); }
  }

  // Above 1 GHz the 32-bit store cuts the period of some accepted SET below its duty.
  lemma CutAbove(freq: Word) returns (cfg: Config)
    requires freq > UNIT
    ensures cfg.pulse <= cfg.period && ToTicks(freq, cfg.period) < ToTicks(freq, cfg.pulse)
  {
    var p, n := CeilQuotient(U32 * UNIT, freq);
    PeriodFits(freq, p, n);
    cfg := Config(p, p - 1);
    assert freq * p == n && freq * (p - 1) == n - freq;
    CutTicks(freq, p, n);
    CutTicks(freq, p - 1, n - freq);
  }

  lemma CutTicks(freq: Word, ns: Word, n: int)
    requires freq * ns == n && (U32 - 5) * UNIT <= n < (U32 + 5) * UNIT
    ensures n < U32 * UNIT ==> ToTicks(freq, ns) >= U32 - 5
    ensures n >= U32 * UNIT ==> ToTicks(freq, ns) < 5
  {
    TicksExact(freq, ns);
  }

  // The duty register never exceeds the period register after any accepted SET if and only
  // if the clock is at most 1 GHz.
  lemma OrderIffGigahertz(freq: Word)
    ensures freq <= UNIT <==>
      forall cfg: Config :: cfg.pulse <= cfg.period ==> ToTicks(freq, cfg.pulse) <= ToTicks(freq, cfg.period)
  {
    if freq <= UNIT {
      forall cfg: Config | cfg.pulse <= cfg.period ensures ToTicks(freq, cfg.pulse) <= ToTicks(freq, cfg.period) {
        TicksMono(freq, cfg.pulse, cfg.period);
      }
    } else {
      var cfg := CutAbove(freq);
    }
  }

  // ----- Drift under repeated writes ----------------------------------------------------------------------

  // What an accepted _pwm_write makes of the period register.
  function Back(freq: Word, h: Word): Word
    requires freq > 0
  {
    ToTicks(freq, ToNanos(freq, h))
  }

  lemma BackArithmetic(h: int, f: int, q: int, r: int)
    requires 0 < f <= UNIT && h * UNIT == q * f + r && 0 <= r < f
    ensures f * q / UNIT == (if r == 0 then h else h - 1)
  {
    if r == 0 {
      QuotientIs(f * q, UNIT, h, 0);
    } else {
      QuotientIs(f * q, UNIT, h - 1, UNIT - r);
    }
  }

  lemma WriteLosesATick(freq: Word, h: Word)
    requires 0 < freq <= UNIT && InRange(freq, h)
    ensures Back(freq, h) == (if h * UNIT % freq == 0 then h else h - 1)
    ensures InRange(freq, Back(freq, h))
  {
    var q, r := NanosWitness(freq, h);
    TicksExact(freq, q);
    SetThenGet(freq, q);
    BackArithmetic(h, freq, q, r);
  }

  lemma NanosWitness(freq: Word, h: Word) returns (q: Word, r: int)
    requires freq > 0 && InRange(freq, h)
    ensures q == ToNanos(freq, h) && h * UNIT == q * freq + r
    ensures 0 <= r < freq && r == h * UNIT % freq
  {
    NanosExact(freq, h);
    q, r := ToNanos(freq, h), h * UNIT % freq;
  }

  // The fewest ticks between period registers that a write leaves alone.
  function Grid(freq: Word): (g: int)
    requires freq > 0
    ensures g > 0
  {
    DividesProduct(freq, UNIT, 0);
    freq / Gcd(freq, UNIT)
  }

  function Min(a: int, b: int): int { if a < b then a else b }

  // Writes that pass the check pulse <= period.
  function Accepted(freq: Word, r: Regs, pulses: seq<Word>): nat
    requires freq > 0
    decreases |pulses|
  {
    if pulses == [] then 0
    else (if pulses[0] <= GetOf(freq, r).period then 1 else 0)
         + Accepted(freq, WriteNext(freq, r, pulses[0]), pulses[1..])
  }

  function Writes(freq: Word, r: Regs, pulses: seq<Word>): Regs
    requires freq > 0
    decreases |pulses|
  {
    if pulses == [] then r else Writes(freq, WriteNext(freq, r, pulses[0]), pulses[1..])
  }

  lemma LessOne(h: nat, g: int)
    requires g > 0 && h % g != 0
    ensures h >= 1 && (h - 1) % g == h % g - 1
  {
    assert h == g * (h / g) + h % g;
    if h == 0 { QuotientIs(0, g, 0, 0); }
    QuotientIs(h - 1, g, h / g, h % g - 1);
  }

  // Any number of writes of the pulse lowers the period register by one tick per accepted
  // write until it reaches the largest multiple of freq / gcd(freq, 10^9) that is not above
  // its start, and never further.
  lemma {:induction false} Drift(freq: Word, r: Regs, pulses: seq<Word>)
    requires 0 < freq <= UNIT && InRange(freq, r.period)
    ensures Writes(freq, r, pulses).period ==
      r.period - Min(Accepted(freq, r, pulses), r.period % Grid(freq))
    decreases |pulses|
  {
    if pulses != [] {
      var r', h, g := WriteNext(freq, r, pulses[0]), r.period, Grid(freq);
      WriteLosesATick(freq, h);
      DividesProduct(freq, UNIT, h);
      if h % g != 0 { LessOne(h, g); }
      assert r'.period == (if pulses[0] <= GetOf(freq, r).period then Back(freq, h) else h);
      Drift(freq, r', pulses[1..]);
    }
  }

  // The period register of the last accepted SET, or of the start, and the writes accepted
  // since.
  function PeriodSet(freq: Word, r: Regs, cmds: seq<Command>): Word
    requires freq > 0
  {
    if cmds == [] then r.period
    else
      var init, last := cmds[..|cmds| - 1], cmds[|cmds| - 1];
      if last.Set? && Accepts(freq, Run(freq, r, init), last) then ToTicks(freq, last.cfg.period)
      else PeriodSet(freq, r, init)
  }

  function WritesSince(freq: Word, r: Regs, cmds: seq<Command>): nat
    requires freq > 0
  {
    if cmds == [] then 0
    else
      var init, last := cmds[..|cmds| - 1], cmds[|cmds| - 1];
      if last.Set? && Accepts(freq, Run(freq, r, init), last) then 0
      else WritesSince(freq, r, init) + (if last.Write? && Accepts(freq, Run(freq, r, init), last) then 1 else 0)
  }

  lemma DriftStep(freq: Word, start: Word, n: nat, h: Word)
    requires 0 < freq <= UNIT && InRange(freq, h) && h == start - Min(n, start % Grid(freq))
    ensures Back(freq, h) == start - Min(n + 1, start % Grid(freq))
  {
    WriteLosesATick(freq, h);
    DividesProduct(freq, UNIT, h);
    RemainderFalls(start, Grid(freq), n);
  }

  lemma RemainderFalls(start: int, g: int, n: nat)
    requires g > 0
    ensures (start - Min(n, start % g)) % g == start % g - Min(n, start % g)
  {
    assert start == g * (start / g) + start % g;
    QuotientIs(start - Min(n, start % g), g, start / g, start % g - Min(n, start % g));
  }

  // The drift over runs of all commands.
  lemma {:induction false} DriftOverRuns(freq: Word, r: Regs, cmds: seq<Command>)
    requires 0 < freq <= UNIT && InRange(freq, r.period)
    ensures var h := Run(freq, r, cmds).period; var start := PeriodSet(freq, r, cmds);
      InRange(freq, h) && h == start - Min(WritesSince(freq, r, cmds), start % Grid(freq))
    decreases |cmds|
  {
    if cmds != [] {
      var init, last := cmds[..|cmds| - 1], cmds[|cmds| - 1];
      var s := Run(freq, r, init);
      RunSplit(freq, r, cmds);
      DriftOverRuns(freq, r, init);
      if last.Set? { SetThenGet(freq, last.cfg.period); }
      if last.Write? {
        WriteLosesATick(freq, s.period);
        DriftStep(freq, PeriodSet(freq, r, init), WritesSince(freq, r, init), s.period);
      }
    } else {
      assert 0 <= r.period % Grid(freq);
    }
  }
}

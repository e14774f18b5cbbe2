/** The clock driver of sys_linux.c: where an offset waits to be slewed away, and how it goes as time
    passes. Seconds are exact reals, kernel amounts whole microseconds and nanoseconds. */
module LinuxSlew {
  import opened Numbers

  const MAX_FASTSLEW_TIMEOUT := 604800.0
  const MAX_ADJUST_WITH_ADJTIME := 0.2
  const MAX_ADJUST_WITH_NANOPLL := 0.5
  const MIN_PLL_TIME_CONSTANT := 0
  const MAX_PLL_TIME_CONSTANT := 10

  /** our_round. */
  function Round(x: real): int {
    if x > 0.0 then Truncate(x + 0.5) else Truncate(x - 0.5)
  }

  lemma TruncateIsClose(x: real)
    ensures -1.0 < Truncate(x) as real - x < 1.0
    ensures x == 0.0 ==> Truncate(x) == 0
  {
  }

  lemma RoundIsClose(x: real)
    ensures -0.5 <= Round(x) as real - x <= 0.5
  {
  }

  /** What a changed tick has slewed after some time. */
  function Done(delta: real, total: real, duration: real): real
    requires total + delta > 0.0
  {
    delta * duration / (total + delta)
  }

  lemma NothingDone(delta: real, total: real)
    requires total + delta > 0.0
    ensures Done(delta, total, 0.0) == 0.0
  {
  }

  /** Time needed to slew an offset away with a changed tick. */
  function SlewTime(offset: real, total: real, delta: real): real
    requires delta != 0.0
  {
    -offset * (total + delta) / delta
  }

  /** A slew lasts as long as it needs, but no longer than the limit. */
  function Capped(seconds: real): real {
    if seconds > MAX_FASTSLEW_TIMEOUT then MAX_FASTSLEW_TIMEOUT else seconds
  }

  /** A slew that runs for the time it needs leaves nothing, and one that runs for longer overshoots by
      what the changed tick does in the rest of the time. */
  lemma SlewFinishes(offset: real, total: real, delta: real, late: real)
    requires total + delta > 0.0 && delta != 0.0
    ensures offset + Done(delta, total, SlewTime(offset, total, delta) + late) == Done(delta, total, late)
  {
    var s, k := SlewTime(offset, total, delta), total + delta;
    Cancels(-offset * k, delta);
    assert delta * s == -offset * k;
    assert delta * (s + late) == -offset * k + delta * late;
    DividesSum(-offset, k, delta * late);
  }

  lemma Cancels(x: real, d: real)
    requires d != 0.0
    ensures d * (x / d) == x
  {
  }

  lemma DividesSum(a: real, k: real, b: real)
    requires k > 0.0
    ensures (a * k + b) / k == a + b / k
  {
  }

  lemma QuotientSign(x: real, y: real)
    requires y != 0.0
    ensures (x > 0.0 && y > 0.0) || (x < 0.0 && y < 0.0) ==> x / y > 0.0
  {
  }

  lemma ProductSign(x: real, y: real)
    requires y > 0.0
    ensures x > 0.0 ==> x * y > 0.0
    ensures x < 0.0 ==> x * y < 0.0
  {
  }

  /** An offset and a tick change of opposite signs take a positive time. */
  lemma SlewTimeIsPositive(offset: real, total: real, delta: real)
    requires total + delta > 0.0
    requires (offset > 0.0 && delta < 0.0) || (offset < 0.0 && delta > 0.0)
    ensures SlewTime(offset, total, delta) > 0.0
  {
    var p := -offset * (total + delta);
    ProductSign(-offset, total + delta);
    QuotientSign(p, delta);
  }

  /** Part of an amount, of its sign. */
  predicate Partly(part: int, whole: int) {
    0 <= part <= whole || whole <= part <= 0
  }

  /** What a changed tick gains on true time. */
  function Gain(delta: real, total: real, dt: real): real
    requires total > 0.0
  {
    delta / total * dt
  }

  /** What a changed tick gains on true time counts as done. */
  lemma TickGains(dt: real, total: real, delta: real, duration: real)
    requires total > 0.0 && total + delta > 0.0
    ensures var gain := Gain(delta, total, dt);
            Done(delta, total, duration + (dt + gain)) == Done(delta, total, duration) + gain
  {
    var g, k := delta / total, total + delta;
    Cancels(delta, total);
    assert delta == total * g;
    var e := dt + g * dt;
    assert k == total * (1.0 + g) && e == (1.0 + g) * dt;
    assert delta * e == total * g * ((1.0 + g) * dt) == (g * dt) * (total * (1.0 + g)) == (g * dt) * k;
    assert delta * (duration + e) == g * dt * k + delta * duration;
    DividesSum(g * dt, k, delta * duration);
  }

  class Clock {
    // Configuration and kernel capabilities.
    const nominalTick: int
    const slewDelta: int
    const maxBias: int
    const dhz: real
    const shiftPll: int
    const haveNanoPll: bool

    // The kernel: its clock, its tick and the adjustments it still has to make.
    var raw: real
    var kernelTick: int
    var pendingMicros: int
    var pendingNanos: int

    // The driver.
    var register: real
    var slowSlewing: bool
    var nanoSlewing: bool
    var fastSlewing: bool
    var wanted: real
    var slewStart: real
    var slewingTick: int
    var deltaTotal: real
    var currentTick: int
    var currentTotal: real
    var timerSet: bool
    var endOfSlew: real
    var pllConstant: int
    var correctionRate: real

    predicate InLimits(tick: int) { nominalTick - maxBias <= tick <= nominalTick + maxBias }

    /** Configuration and totals fit together, and at most one mechanism is at work. */
    predicate Core()
      reads this
    {
      && 1 <= slewDelta && 0 <= maxBias < nominalTick && dhz > 0.0
      && InLimits(currentTick)
      && -0.5 <= 1000000.0 * currentTotal - currentTick as real <= 0.5
      && (fastSlewing ==> SlewIsSet())
      && (!fastSlewing ==> kernelTick == currentTick)
      && (!slowSlewing ==> pendingMicros == 0) && (!nanoSlewing ==> pendingNanos == 0)
      && (slowSlewing ==> !nanoSlewing && !fastSlewing) && (nanoSlewing ==> !fastSlewing && haveNanoPll)
      && -1 <= pllConstant <= MAX_PLL_TIME_CONSTANT
    }

    /** A fast slew has a tick within limits, different from the current one, set in the kernel. */
    predicate SlewIsSet()
      reads this
    {
      && InLimits(slewingTick) && kernelTick == slewingTick
      && 1000000.0 * deltaTotal == (slewingTick - currentTick) as real && slewingTick != currentTick
    }

    /** A fast slew has taken over the whole register and ends when it is done, or at the limit. */
    predicate Scheduled()
      requires Core()
      reads this
    {
      fastSlewing ==> register == 0.0 && (TotalIsPositive(); endOfSlew == slewStart + Capped(FullTime()))
    }

    /** The time that the fast slew in progress needs in all. */
    function FullTime(): real
      requires deltaTotal != 0.0
      reads `wanted, `currentTotal, `deltaTotal
    {
      SlewTime(wanted, currentTotal, deltaTotal)
    }

    /** Between calls the end of a fast slew, and of nothing else, is queued. */
    predicate Valid()
      reads this
    {
      Core() && (timerSet <==> fastSlewing) && Scheduled()
    }

    /** SYS_Linux_Initialise: nothing is outstanding; vernier is the kernel frequency in ticks. */
    constructor (nominalTick: int, slewDelta: int, maxBias: int, dhz: real, shiftPll: int, haveNanoPll: bool,
                 tick: int, vernier: real)
      requires 1 <= slewDelta && 0 <= maxBias < nominalTick && dhz > 0.0
      requires nominalTick - maxBias <= tick <= nominalTick + maxBias && -0.5 <= vernier <= 0.5
      ensures Valid() && Outstanding() == 0.0 && this.haveNanoPll == haveNanoPll
    {
      this.nominalTick, this.slewDelta, this.maxBias, this.dhz := nominalTick, slewDelta, maxBias, dhz;
      this.shiftPll, this.haveNanoPll := shiftPll, haveNanoPll;
      raw, kernelTick, pendingMicros, pendingNanos := 0.0, tick, 0, 0;
      register, slowSlewing, nanoSlewing, fastSlewing := 0.0, false, false, false;
      wanted, slewStart, slewingTick, deltaTotal := 0.0, 0.0, tick, 0.0;
      currentTick, currentTotal := tick, (tick as real + vernier) / 1000000.0;
      timerSet, endOfSlew, pllConstant, correctionRate := false, 0.0, 0, 0.0;
    }

    lemma TotalIsPositive()
      requires Core() && fastSlewing
      ensures currentTotal + deltaTotal > 0.0 && deltaTotal != 0.0
    {
    }

    /** What the clock is ahead of true time by and still has to be slewed away. */
    ghost function Outstanding(): real
      requires Core()
      reads this
    {
      register + FastRemaining() - pendingMicros as real / 1000000.0 - pendingNanos as real / 1000000000.0
    }

    function FastRemaining(): real
      requires Core()
      reads this
    {
      if fastSlewing then TotalIsPositive(); wanted + Done(deltaTotal, currentTotal, raw - slewStart) else 0.0
    }

    /** get_offset_correction: the correction is exactly the outstanding offset, negated. */
    method GetOffsetCorrection() returns (correction: real)
      requires Valid()
      modifies `slowSlewing, `nanoSlewing
      ensures Valid() && Outstanding() == old(Outstanding()) && correction == -Outstanding()
    {
      hide Done;
      var micros, nanos := 0, 0;
      if slowSlewing {
        micros := pendingMicros;
        if micros == 0 {
          slowSlewing := false;
        }
      }
      if nanoSlewing {
        nanos := pendingNanos;
        if nanos == 0 {
          nanoSlewing := false;
        }
      }
      correction := -(register + FastRemaining()) + micros as real / 1000000.0 + nanos as real / 1000000000.0;
    }

    /** stop_fast_slew: what the slew has not done goes back to the register. */
    method StopFastSlew()
      requires Core() && fastSlewing
      modifies `kernelTick, `fastSlewing, `register
      ensures Core() && !fastSlewing && Outstanding() == old(Outstanding())
      ensures register == old(register + FastRemaining())
    {
      hide Done;
      TotalIsPositive();
      kernelTick := currentTick;
      fastSlewing := false;
      var duration := raw - slewStart;
      register := register + (wanted + Done(deltaTotal, currentTotal, duration));
    }

    /** adjust_fast_slew: what the slew has done at the old ticks counts, and it restarts from now with
        all that is left. */
    method AdjustFastSlew(oldTotal: real, oldDelta: real)
      requires Core() && fastSlewing && oldTotal + oldDelta > 0.0
      modifies `register, `wanted, `slewStart, `timerSet, `endOfSlew
      ensures Valid() && fastSlewing && slewStart == raw
      ensures Outstanding() == old(register) + old(wanted) + Done(oldDelta, oldTotal, old(raw - slewStart))
    {
      TotalIsPositive();
      NothingDone(deltaTotal, currentTotal);
      hide Done, SlewTime;
      register := register + (wanted + Done(oldDelta, oldTotal, raw - slewStart));
      var seconds := Capped(SlewTime(register, currentTotal, deltaTotal));
      slewStart := raw;
      wanted := register;
      register := 0.0;
      timerSet, endOfSlew := true, raw + seconds;
      assert raw - slewStart == 0.0;
    }

    /** The correction time below which a time constant is chosen. */
    function PllTime(c: int): real { Pow2(c + 1 + shiftPll) as real }

    /** get_pll_constant: the smallest time constant, up to the largest, that is slower than asked for. */
    method GetPllConstant(offset: real) returns (c: int)
      ensures MIN_PLL_TIME_CONSTANT <= c <= MAX_PLL_TIME_CONSTANT
      ensures offset < 1.0e-9 ==> c == MIN_PLL_TIME_CONSTANT
      ensures offset >= 1.0e-9 ==>
                && (forall b :: MIN_PLL_TIME_CONSTANT <= b < c ==>
                      correctionRate / offset >= PllTime(b))
                && (c < MAX_PLL_TIME_CONSTANT ==> correctionRate / offset < PllTime(c))
    {
      if offset < 1.0e-9 {
        return MIN_PLL_TIME_CONSTANT;
      }
      var corrTime := correctionRate / offset;
      c := MIN_PLL_TIME_CONSTANT;
      while c < MAX_PLL_TIME_CONSTANT && corrTime >= PllTime(c)
        invariant MIN_PLL_TIME_CONSTANT <= c <= MAX_PLL_TIME_CONSTANT
        invariant forall b :: MIN_PLL_TIME_CONSTANT <= b < c ==> corrTime >= PllTime(b)
      {
        c := c + 1;
      }
    }

    /** What the kernel still has to do goes back to the register. */
    method CancelKernelSlew()
      requires Core() && !fastSlewing
      modifies `register, `pendingMicros, `pendingNanos, `slowSlewing, `nanoSlewing
      ensures Core() && !slowSlewing && !nanoSlewing
      ensures register == old(Outstanding()) == Outstanding()
    {
      if slowSlewing {
        var offset := pendingMicros;
        pendingMicros := 0;
        register := register - offset as real / 1000000.0;
        slowSlewing := false;
      } else if nanoSlewing {
        var offset := pendingNanos;
        register := register - offset as real / 1000000000.0;
        pendingNanos := 0;
        nanoSlewing := false;
      }
    }

    /** Hand the register to the kernel's PLL; a leftover below a nanosecond is dropped. */
    method SlewByPll()
      requires haveNanoPll && Core() && !fastSlewing && !slowSlewing && !nanoSlewing
      modifies `register, `pendingNanos, `nanoSlewing, `pllConstant
      ensures Core() && nanoSlewing && register == 0.0 && pllConstant >= MIN_PLL_TIME_CONSTANT
      ensures -1.0e-9 < Outstanding() - old(Outstanding()) < 1.0e-9
      ensures old(register) == 0.0 ==> Outstanding() == 0.0
    {
      var x := 1000000000.0 * -register;
      TruncateIsClose(x);
      var offset := Truncate(x);
      if pllConstant < 0 {
        pllConstant := GetPllConstant(Abs(register));
      }
      pendingNanos := offset;
      register := 0.0;
      nanoSlewing := true;
    }

    /** Hand the register to adjtime, to the nearest microsecond, and keep the rest. */
    method SlewByAdjtime()
      requires Core() && !fastSlewing && !slowSlewing && !nanoSlewing
      modifies `register, `pendingMicros, `slowSlewing
      ensures Core() && Outstanding() == old(Outstanding())
      ensures -0.0000005 <= register <= 0.0000005
    {
      var x := 1000000.0 * -register;
      RoundIsClose(x);
      var offset := Round(x);
      register := register + offset as real / 1000000.0;
      if offset != 0 {
        pendingMicros := offset;
        slowSlewing := true;
      }
    }

    /** The tick that slews the register away, within limits, or the current one when it is at its limit. */
    method ChooseTick() returns (tick: int)
      requires Core() && register != 0.0
      ensures InLimits(tick)
      ensures if register > 0.0 then tick < currentTick || tick == currentTick == nominalTick - maxBias
              else tick > currentTick || tick == currentTick == nominalTick + maxBias
    {
      var lo, hi := nominalTick - maxBias, nominalTick + maxBias;
      if register > 0.0 {
        if currentTick <= lo {
          return currentTick;
        }
        tick := currentTick - slewDelta;
        if tick < lo {
          tick := lo;
        }
      } else {
        if currentTick >= hi {
          return currentTick;
        }
        tick := currentTick + slewDelta;
        if tick > hi {
          tick := hi;
        }
      }
    }

    /** How long to slew: the time after which nothing of the register is left at the changed tick, or
        the limit. It is always positive. */
    method SlewSeconds() returns (seconds: real)
      requires currentTotal + deltaTotal > 0.0
      requires (register > 0.0 && deltaTotal < 0.0) || (register < 0.0 && deltaTotal > 0.0)
      ensures 0.0 < seconds <= MAX_FASTSLEW_TIMEOUT
      ensures seconds == Capped(SlewTime(register, currentTotal, deltaTotal))
      ensures seconds < MAX_FASTSLEW_TIMEOUT ==> register + Done(deltaTotal, currentTotal, seconds) == 0.0
    {
      SlewTimeIsPositive(register, currentTotal, deltaTotal);
      SlewFinishes(register, currentTotal, deltaTotal, 0.0);
      NothingDone(deltaTotal, currentTotal);
      hide SlewTime, Done;
      seconds := SlewTime(register, currentTotal, deltaTotal);
      assert seconds > 0.0;
      if seconds > MAX_FASTSLEW_TIMEOUT {
        seconds := MAX_FASTSLEW_TIMEOUT;
      }
    }

    /** Change the tick, unless it is at its limit, for as long as the register needs. */
    method SlewByTick()
      requires Core() && !timerSet && !fastSlewing && !slowSlewing && !nanoSlewing && register != 0.0
      modifies `slewingTick, `deltaTotal, `kernelTick, `fastSlewing, `slewStart, `timerSet, `endOfSlew, `wanted, `register
      ensures Valid() && Outstanding() == old(Outstanding())
      ensures fastSlewing ==>
                && InLimits(kernelTick) && slewStart == raw < endOfSlew <= raw + MAX_FASTSLEW_TIMEOUT
                && (old(register) > 0.0 <==> kernelTick < currentTick)
      ensures !fastSlewing ==>
                currentTick == if old(register) > 0.0 then nominalTick - maxBias else nominalTick + maxBias
    {
      var tick := ChooseTick();
      if tick == currentTick {
        return;
      }
      slewingTick := tick;
      deltaTotal := (slewingTick - currentTick) as real / 1000000.0;
      var seconds := SlewSeconds();
      BeginFastSlew(seconds);
    }

    /** Set the slewing tick and hand the register to it. */
    method BeginFastSlew(seconds: real)
      requires Core() && !fastSlewing && !slowSlewing && !nanoSlewing
      requires InLimits(slewingTick) && slewingTick != currentTick
      requires 1000000.0 * deltaTotal == (slewingTick - currentTick) as real && currentTotal + deltaTotal > 0.0
      requires seconds == Capped(SlewTime(register, currentTotal, deltaTotal))
      modifies `kernelTick, `fastSlewing, `slewStart, `timerSet, `endOfSlew, `wanted, `register
      ensures Valid() && fastSlewing && Outstanding() == old(Outstanding())
      ensures kernelTick == slewingTick && endOfSlew == raw + seconds && slewStart == raw
    {
      kernelTick, fastSlewing, slewStart, timerSet, endOfSlew := slewingTick, true, raw, true, raw + seconds;
      wanted, register := register, 0.0;
      TotalIsPositive();
      NothingDone(deltaTotal, currentTotal);
      hide Done, SlewTime;
      assert raw - slewStart == 0.0;
    }

    /** initiate_slew: the outstanding offset stays the same, up to a nanosecond lost to the PLL; an
        offset of zero stays exactly zero. */
    method InitiateSlew()
      requires Core() && !fastSlewing && !timerSet
      modifies `slewingTick, `deltaTotal, `kernelTick, `fastSlewing, `slewStart, `timerSet, `endOfSlew, `wanted,
               `register, `pendingMicros, `pendingNanos, `slowSlewing, `nanoSlewing, `pllConstant
      ensures Valid()
      ensures -1.0e-9 < Outstanding() - old(Outstanding()) < 1.0e-9
      ensures !nanoSlewing ==> Outstanding() == old(Outstanding())
      ensures old(Outstanding()) == 0.0 ==> Outstanding() == 0.0 && !fastSlewing
      ensures fastSlewing ==> InLimits(kernelTick) && raw < endOfSlew <= raw + MAX_FASTSLEW_TIMEOUT
      ensures fastSlewing ==> Abs(old(Outstanding())) >= MAX_ADJUST_WITH_ADJTIME
    {
      if register == 0.0 {
        return;
      }
      CancelKernelSlew();
      if haveNanoPll && Abs(register) < MAX_ADJUST_WITH_NANOPLL {
        SlewByPll();
      } else if Abs(register) < MAX_ADJUST_WITH_ADJTIME {
        SlewByAdjtime();
      } else {
        SlewByTick();
      }
    }

    /** When the end of a slew is handled late, or early, the offset left is what the changed tick does in
        the time between; on time nothing is left, unless the limit cut the slew short. */
    lemma LeftAtTheEnd()
      requires Core() && fastSlewing && deltaTotal != 0.0 && Scheduled() && FullTime() <= MAX_FASTSLEW_TIMEOUT
      ensures currentTotal + deltaTotal > 0.0
      ensures Outstanding() == Done(deltaTotal, currentTotal, raw - endOfSlew)
      ensures raw == endOfSlew ==> Outstanding() == 0.0
    {
      TotalIsPositive();
      SlewFinishes(wanted, currentTotal, deltaTotal, raw - endOfSlew);
      NothingDone(deltaTotal, currentTotal);
      hide Done, SlewTime;
      assert raw - slewStart == FullTime() + (raw - endOfSlew);
    }

    /** handle_end_of_slew: the timer that fired is no longer queued. A slew that ends on time, and that the
        limit has not cut short, leaves nothing. */
    method HandleEndOfSlew()
      requires Core() && fastSlewing && !timerSet && Scheduled()
      modifies `slewingTick, `deltaTotal, `kernelTick, `fastSlewing, `slewStart, `timerSet, `endOfSlew, `wanted,
               `register, `pendingMicros, `pendingNanos, `slowSlewing, `nanoSlewing, `pllConstant
      ensures Valid()
      ensures -1.0e-9 < Outstanding() - old(Outstanding()) < 1.0e-9
      ensures !nanoSlewing ==> Outstanding() == old(Outstanding())
      ensures old(deltaTotal != 0.0 && FullTime() <= MAX_FASTSLEW_TIMEOUT && raw == endOfSlew) ==>
                Outstanding() == 0.0 && !fastSlewing
    {
      TotalIsPositive();
      if FullTime() <= MAX_FASTSLEW_TIMEOUT {
        LeftAtTheEnd();
      }
      hide Done, SlewTime;
      StopFastSlew();
      InitiateSlew();
    }

    /** abort_slew. */
    method AbortSlew()
      requires Valid()
      modifies `kernelTick, `fastSlewing, `register, `timerSet
      ensures Valid() && !fastSlewing && Outstanding() == old(Outstanding())
    {
      if fastSlewing {
        StopFastSlew();
        timerSet := false;
      }
    }

    /** accrue_offset: the outstanding offset grows by exactly the offset, up to a nanosecond lost to the PLL. */
    method AccrueOffset(offset: real, corrRate: real)
      requires Valid()
      modifies `slewingTick, `deltaTotal, `kernelTick, `fastSlewing, `slewStart, `timerSet, `endOfSlew, `wanted,
               `register, `pendingMicros, `pendingNanos, `slowSlewing, `nanoSlewing, `pllConstant, `correctionRate
      ensures Valid()
      ensures -1.0e-9 < Outstanding() - (old(Outstanding()) + offset) < 1.0e-9
      ensures !nanoSlewing ==> Outstanding() == old(Outstanding()) + offset
      ensures old(Outstanding()) + offset == 0.0 ==> Outstanding() == 0.0
    {
      hide Done;
      register := register + offset;
      correctionRate := corrRate;
      pllConstant := -1;
      if !fastSlewing {
        InitiateSlew();
      } else {
        TotalIsPositive();
        AdjustFastSlew(currentTotal, deltaTotal);
      }
    }

    /** apply_step_offset: the clock jumps back by the offset and no fast slew survives. */
    method ApplyStepOffset(offset: real)
      requires Valid()
      modifies `raw, `slewingTick, `deltaTotal, `kernelTick, `fastSlewing, `slewStart, `timerSet, `endOfSlew, `wanted,
               `register, `pendingMicros, `pendingNanos, `slowSlewing, `nanoSlewing, `pllConstant
      ensures Valid() && raw == old(raw) - offset
      ensures -1.0e-9 < Outstanding() - old(Outstanding()) < 1.0e-9
      ensures !nanoSlewing ==> Outstanding() == old(Outstanding())
      ensures old(Outstanding()) == 0.0 ==> Outstanding() == 0.0
    {
      hide Done;
      if fastSlewing {
        AbortSlew();
      }
      raw := raw - offset;
      InitiateSlew();
    }

    // ---------- time passing ----------

    /** While dt seconds of true time pass, the kernel ticks at its present tick and carries out micros
        and nanos of what it still has to adjust. The clock gains what was slewed and the outstanding
        offset with it, so that the cooked time moves by dt. */
    method Advance(dt: real, micros: int, nanos: int)
      requires Valid() && dt >= 0.0 && Partly(micros, pendingMicros) && Partly(nanos, pendingNanos)
      modifies `raw, `pendingMicros, `pendingNanos
      ensures Valid()
      ensures raw - Outstanding() == old(raw - Outstanding()) + dt
      ensures Outstanding() - old(Outstanding()) == micros as real / 1000000.0 + nanos as real / 1000000000.0
                + if fastSlewing then Gain(deltaTotal, currentTotal, dt) else 0.0
    {
      var gain := 0.0;
      if fastSlewing {
        TotalIsPositive();
        gain := Gain(deltaTotal, currentTotal, dt);
        TickGains(dt, currentTotal, deltaTotal, raw - slewStart);
      }
      hide Done, SlewTime, Gain, FullTime, Capped;
      ghost var was := raw;
      raw := raw + dt + gain + micros as real / 1000000.0 + nanos as real / 1000000000.0;
      pendingMicros, pendingNanos := pendingMicros - micros, pendingNanos - nanos;
      if fastSlewing {
        assert raw - slewStart == was - slewStart + (dt + gain);
      }
    }

    // ---------- frequency ----------

    function WantedTick(freq: real): int
      requires dhz > 0.0
    {
      nominalTick - Round(freq / dhz)
    }

    /** The tick a frequency leads to, kept within limits. */
    function TickFor(freq: real): int
      requires dhz > 0.0
    {
      var tick := WantedTick(freq);
      if tick < nominalTick - maxBias then nominalTick - maxBias
      else if tick > nominalTick + maxBias then nominalTick + maxBias
      else tick
    }

    /** The part of a frequency that the tick does not express, in ticks. */
    function Vernier(freq: real): real
      requires dhz > 0.0
    {
      Round(freq / dhz) as real - freq / dhz
    }

    /** set_frequency, for a kernel that sets the frequency it is given. A fast slew goes on from now with
        what is left; it must not have become void, as it would if the new tick were the slewing one. */
    method SetFrequency(freq: real) returns (actual: real)
      requires Valid()
      requires fastSlewing ==> TickFor(freq) != slewingTick
      modifies `currentTick, `currentTotal, `kernelTick, `deltaTotal, `register, `wanted, `slewStart, `timerSet, `endOfSlew
      ensures Valid() && currentTick == TickFor(freq) && fastSlewing == old(fastSlewing)
      ensures Outstanding() == old(Outstanding())
      ensures fastSlewing ==> kernelTick == old(kernelTick)
      ensures actual == dhz * (nominalTick - TickFor(freq)) as real + dhz * -Vernier(freq)
    {
      hide Done, Round, Vernier, TickFor;
      var tick := ClampedTick(freq);
      var verniers := Vernier(freq);
      VernierIsSmall(freq);
      var oldTotal, oldDelta := currentTotal, deltaTotal;
      if fastSlewing {
        TotalIsPositive();
        currentTick := tick;
        currentTotal := (currentTick as real + verniers) / 1000000.0;
        deltaTotal := (slewingTick as real + verniers) / 1000000.0 - currentTotal;
        AdjustFastSlew(oldTotal, oldDelta);
      } else {
        currentTick := tick;
        currentTotal := (currentTick as real + verniers) / 1000000.0;
        kernelTick := tick;
      }
      actual := dhz * (nominalTick - currentTick) as real + dhz * -verniers;
    }

    method ClampedTick(freq: real) returns (tick: int)
      requires dhz > 0.0 && maxBias >= 0
      ensures tick == TickFor(freq) && InLimits(tick)
    {
      hide Round;
      tick := nominalTick - Round(freq / dhz);
      if tick < nominalTick - maxBias {
        tick := nominalTick - maxBias;
      } else if tick > nominalTick + maxBias {
        tick := nominalTick + maxBias;
      }
    }

    lemma VernierIsSmall(freq: real)
      requires dhz > 0.0
      ensures -0.5 <= Vernier(freq) <= 0.5
    {
      RoundIsClose(freq / dhz);
      hide Round;
    }
  }

  lemma Product(a: real, b: real)
    requires a > 0.0
    ensures a * (b / a) == b
  {
  }

  /** A frequency within the range of the tick is set exactly. */
  lemma FrequencyIsExact(c: Clock, freq: real)
    requires c.dhz > 0.0 && c.InLimits(c.WantedTick(freq))
    ensures c.dhz * (c.nominalTick - c.TickFor(freq)) as real + c.dhz * -c.Vernier(freq) == freq
  {
    var n := Round(freq / c.dhz);
    hide Round;
    Product(c.dhz, freq);
    assert c.dhz * -c.Vernier(freq) == c.dhz * (freq / c.dhz) - c.dhz * n as real;
  }
}

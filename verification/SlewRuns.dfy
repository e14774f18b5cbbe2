/** Whole runs of the clock driver: what was slewed and what is outstanding add up. */
module SlewRuns {
  import opened LinuxSlew

  /** What happens to the driver: calls of local.c, the queued end of a slew coming up, and time passing
      while the kernel adjusts at most so much. */
  datatype Op =
    | Accrue(offset: real, corrRate: real)
    | Step(offset: real)
    | ChangeFrequency(freq: real)
    | ReadCorrection
    | SlewEnds
    | Elapse(dt: real, micros: int, nanos: int)

  predicate Forward(op: Op) { op.Elapse? ==> op.dt >= 0.0 }

  /** The call may hand an offset to the kernel's PLL, which drops less than a nanosecond of it. */
  predicate MaySlew(op: Op) { op.Accrue? || op.Step? || op.SlewEnds? }

  function Accrued(ops: seq<Op>): real {
    if ops == [] then 0.0
    else
      var last := ops[|ops| - 1];
      Accrued(ops[..|ops| - 1]) + if last.Accrue? then last.offset else 0.0
  }

  /** By how much true time passing and steps move the clock. */
  function Moved(ops: seq<Op>): real {
    if ops == [] then 0.0
    else
      var last := ops[|ops| - 1];
      Moved(ops[..|ops| - 1]) + if last.Elapse? then last.dt else if last.Step? then -last.offset else 0.0
  }

  function SlewCalls(ops: seq<Op>): nat {
    if ops == [] then 0
    else SlewCalls(ops[..|ops| - 1]) + if MaySlew(ops[|ops| - 1]) then 1 else 0
  }

  lemma OneMoreOp(ops: seq<Op>, k: nat)
    requires k < |ops|
    ensures Accrued(ops[..k + 1]) == Accrued(ops[..k]) + if ops[k].Accrue? then ops[k].offset else 0.0
    ensures Moved(ops[..k + 1]) ==
              Moved(ops[..k]) + if ops[k].Elapse? then ops[k].dt else if ops[k].Step? then -ops[k].offset else 0.0
    ensures SlewCalls(ops[..k + 1]) == SlewCalls(ops[..k]) + if MaySlew(ops[k]) then 1 else 0
  {
    assert ops[..k + 1][..k] == ops[..k];
  }

  /** The part of an amount that is at most `limit`. */
  function Clip(part: int, limit: int): (c: int)
    ensures Partly(c, limit)
  {
    if limit >= 0 then (if part < 0 then 0 else if part > limit then limit else part)
    else (if part > 0 then 0 else if part < limit then limit else part)
  }

  /** One event. The end of a slew comes up when it is queued and due; a frequency that would make the
      slew in progress void is not set. */
  method Do(c: Clock, op: Op) returns (ghost lost: real, ghost handedOver: bool)
    requires c.Valid() && Forward(op)
    modifies c
    ensures c.Valid()
    ensures c.Outstanding() - c.raw ==
              old(c.Outstanding() - c.raw) + lost
              + (if op.Accrue? then op.offset else if op.Step? then op.offset else if op.Elapse? then -op.dt else 0.0)
    ensures -1.0e-9 < lost < 1.0e-9 && (lost != 0.0 ==> handedOver)
    ensures handedOver ==> MaySlew(op) && c.haveNanoPll && c.nanoSlewing
  {
    ghost var before := c.Outstanding() - c.raw;
    match op {
      case Accrue(offset, corrRate) => c.AccrueOffset(offset, corrRate);
      case Step(offset) => c.ApplyStepOffset(offset);
      case ChangeFrequency(freq) =>
        if !c.fastSlewing || c.TickFor(freq) != c.slewingTick {
          var actual := c.SetFrequency(freq);
        }
      case ReadCorrection =>
        var correction := c.GetOffsetCorrection();
      case SlewEnds =>
        if c.timerSet && c.endOfSlew <= c.raw {
          c.timerSet := false;
          c.HandleEndOfSlew();
        }
      case Elapse(dt, micros, nanos) =>
        c.Advance(dt, Clip(micros, c.pendingMicros), Clip(nanos, c.pendingNanos));
    }
    handedOver := MaySlew(op) && c.nanoSlewing;
    lost := c.Outstanding() - c.raw - before
            - (if op.Accrue? then op.offset else if op.Step? then op.offset else if op.Elapse? then -op.dt else 0.0);
  }

  /** Over any run, the outstanding offset and what was slewed away, that is, by how much the clock moved
      less than true time and steps would have it, add up to what was accrued: exactly without the PLL,
      and to within a nanosecond for every offset handed over to it. */
  method Drive(c: Clock, ops: seq<Op>) returns (ghost handOvers: nat)
    requires c.Valid() && forall k :: 0 <= k < |ops| ==> Forward(ops[k])
    modifies c
    ensures c.Valid()
    ensures handOvers <= SlewCalls(ops) && (!c.haveNanoPll ==> handOvers == 0)
    ensures var slewed := old(c.raw) + Moved(ops) - c.raw;
            var balance := c.Outstanding() + slewed - (old(c.Outstanding()) + Accrued(ops));
            -1.0e-9 * handOvers as real <= balance <= 1.0e-9 * handOvers as real
  {
    handOvers := 0;
    ghost var start := c.Outstanding() - c.raw;
    for k := 0 to |ops|
      invariant c.Valid()
      invariant handOvers <= SlewCalls(ops[..k]) && (!c.haveNanoPll ==> handOvers == 0)
      invariant var balance := c.Outstanding() - c.raw - start + Moved(ops[..k]) - Accrued(ops[..k]);
                -1.0e-9 * handOvers as real <= balance <= 1.0e-9 * handOvers as real
    {
      OneMoreOp(ops, k);
      ghost var lost, handedOver;
      lost, handedOver := Do(c, ops[k]);
      if handedOver {
        handOvers := handOvers + 1;
      }
    }
    assert ops[..|ops|] == ops;
  }

  /** A fast slew that is left alone until its end, and that the limit does not cut short, takes the whole
      outstanding offset away. */
  method LetSlewFinish(c: Clock)
    requires c.Valid() && c.fastSlewing && c.raw <= c.endOfSlew
    requires c.deltaTotal != 0.0 && c.FullTime() <= MAX_FASTSLEW_TIMEOUT
    modifies c
    ensures c.Valid() && !c.fastSlewing && c.Outstanding() == 0.0
    ensures c.raw == old(c.endOfSlew)
  {
    hide Clock.FullTime, Clock.Outstanding, Gain, TrueTime;
    c.TotalIsPositive();
    TimeToTheEnd(c.endOfSlew - c.raw, c.currentTotal, c.deltaTotal);
    c.Advance(TrueTime(c.endOfSlew - c.raw, c.currentTotal, c.deltaTotal), 0, 0);
    c.timerSet := false;
    c.HandleEndOfSlew();
  }

  /** True time in which the clock advances by so much at a changed tick. */
  function TrueTime(rest: real, total: real, delta: real): real
    requires total + delta > 0.0
  {
    rest * total / (total + delta)
  }

  lemma TimeToTheEnd(rest: real, total: real, delta: real)
    requires rest >= 0.0 && total > 0.0 && total + delta > 0.0
    ensures var dt := TrueTime(rest, total, delta);
            dt >= 0.0 && dt + Gain(delta, total, dt) == rest
  {
    var k := total + delta;
    var dt := rest * total / k;
    Cancels(rest * total, k);
    Cancels(delta, total);
    var g := delta / total;
    assert k == total * (1.0 + g);
    assert total * ((1.0 + g) * dt) == k * dt == rest * total;
  }
}

/** local.c over the Linux driver: steps, slews and the composition of frequencies. */
module LocalClock {
  import opened LinuxSlew
  import opened Numbers

  // ---------- frequency arithmetic, in parts per million ----------

  /** The scale by which a temperature compensation multiplies frequencies. */
  function Scale(comp: real): real { 1.0 - 0.000001 * comp }

  /** LCL_SetAbsoluteFrequency's value for the driver. */
  function Compensated(freq: real, comp: real): real {
    if comp != 0.0 then freq * Scale(comp) - comp else freq
  }

  /** LCL_ReadAbsoluteFrequency's value. */
  function Absolute(freq: real, comp: real): real
    requires Scale(comp) != 0.0
  {
    if comp != 0.0 then (freq + comp) / Scale(comp) else freq
  }

  lemma Divides(x: real, y: real, z: real)
    requires z != 0.0 && x == y * z
    ensures x / z == y
  {
  }

  lemma DivideBack(x: real, z: real)
    requires z != 0.0
    ensures x / z * z == x
  {
  }

  /** Setting and reading an absolute frequency are inverse to each other, both ways. */
  lemma CompensationRoundTrip(freq: real, comp: real)
    requires Scale(comp) != 0.0
    ensures Absolute(Compensated(freq, comp), comp) == freq
    ensures Compensated(Absolute(freq, comp), comp) == freq
  {
    hide Scale;
    if comp != 0.0 {
      Divides(freq * Scale(comp), freq, Scale(comp));
      DivideBack(freq + comp, Scale(comp));
    }
  }

  /** The compensation LCL_SetTempComp records, given what the driver made of the frequency. */
  function Recorded(free: real, actual: real): real
    requires 1.0 + 0.000001 * free != 0.0
  {
    (free - actual) / (0.000001 * free + 1.0)
  }

  /** Whatever the driver rounds the frequency to, the recorded compensation explains it: the absolute
      frequency stays what it was. */
  lemma TempCompKeepsAbsolute(free: real, actual: real)
    requires 1.0 + 0.000001 * free != 0.0 && Scale(Recorded(free, actual)) != 0.0
    ensures Absolute(actual, Recorded(free, actual)) == free
  {
    var k, t := 0.000001 * free + 1.0, Recorded(free, actual);
    DivideBack(free - actual, k);
    assert t * k == free - actual;
    Expand(t, free, k);
    if t != 0.0 {
      assert free * Scale(t) == free - 0.000001 * free * t;
      Divides(actual + t, free, Scale(t));
    }
  }

  lemma Expand(t: real, free: real, k: real)
    requires k == 0.000001 * free + 1.0
    ensures t * k == 0.000001 * free * t + t
  {
  }

  /** A driver that sets what it is told is compensated by exactly the amount asked for. */
  lemma ExactDriverRecordsComp(free: real, comp: real)
    requires 1.0 + 0.000001 * free != 0.0
    ensures Recorded(free, Compensated(free, comp)) == comp
  {
    var k := 0.000001 * free + 1.0;
    Expand(comp, free, k);
    assert free * Scale(comp) == free - 0.000001 * free * comp;
    Divides(free - Compensated(free, comp), comp, k);
  }

  /** LCL_AccumulateDeltaFrequency's new frequency. */
  function Accumulated(freq: real, dfreq: real): real {
    (1.0 + dfreq) * freq + 1000000.0 * dfreq
  }

  /** The change of gradient reported to the handlers. */
  function Gradient(before: real, after: real): real
    requires 1000000.0 + before != 0.0
  {
    (after - before) / (1000000.0 + before)
  }

  /** Handlers are told the change that was asked for when the driver obeys, and changes compose as
      gradients do. */
  lemma FrequencyChangesCompose(freq: real, d1: real, d2: real)
    requires 1000000.0 + freq != 0.0
    ensures Gradient(freq, Accumulated(freq, d1)) == d1
    ensures Accumulated(Accumulated(freq, d1), d2) == Accumulated(freq, (1.0 + d1) * (1.0 + d2) - 1.0)
  {
    AccumulatedRatio(freq, d1);
    Divides(Accumulated(freq, d1) - freq, d1, 1000000.0 + freq);
    var f1 := Accumulated(freq, d1);
    AccumulatedRatio(f1, d2);
    AccumulatedRatio(freq, (1.0 + d1) * (1.0 + d2) - 1.0);
    var g := 1000000.0 + freq;
    assert 1000000.0 + f1 == (1.0 + d1) * g;
    hide Accumulated;
    Associates(1.0 + d2, 1.0 + d1, g);
  }

  lemma AccumulatedRatio(freq: real, d: real)
    ensures 1000000.0 + Accumulated(freq, d) == (1.0 + d) * (1000000.0 + freq)
    ensures Accumulated(freq, d) - freq == d * (1000000.0 + freq)
  {
  }

  lemma Associates(a: real, b: real, g: real)
    ensures a * (b * g) == (b * a) * g
  {
  }

  // ---------- the module's operations ----------

  /** What the registered handlers are told of a change. */
  datatype Notice = Notice(raw: real, cooked: real, dfreq: real, doffset: real, isStep: bool)

  class Local {
    const driver: Clock
    var frequency: real
    var tempComp: real

    ghost predicate Valid()
      reads this, driver
    {
      driver.Valid()
    }

    /** lcl_RegisterSystemDrivers, with the frequency the driver reads. */
    constructor (driver: Clock, frequency: real)
      requires driver.Valid()
      ensures this.driver == driver && Valid()
      ensures tempComp == 0.0 && this.frequency == frequency
    {
      this.driver, this.frequency, tempComp := driver, frequency, 0.0;
    }

    /** The time given to clients: the raw time with the correction applied. */
    ghost function Cooked(): real
      requires Valid()
      reads this, driver
    {
      driver.raw - driver.Outstanding()
    }

    /** LCL_CookTime of the present raw time. */
    method CookTime() returns (cooked: real)
      requires Valid()
      modifies driver
      ensures Valid() && driver.raw == old(driver.raw) && Cooked() == old(Cooked()) == cooked
      ensures driver.Outstanding() == old(driver.Outstanding())
    {
      var correction := driver.GetOffsetCorrection();
      cooked := driver.raw + correction;
    }

    /** LCL_AccumulateOffset: cooked time moves by the offset that the handlers are told, to within a
        nanosecond. */
    method AccumulateOffset(offset: real, corrRate: real) returns (n: Notice)
      requires Valid()
      modifies driver
      ensures Valid() && driver.raw == old(driver.raw)
      ensures n == Notice(old(driver.raw), old(Cooked()), 0.0, offset, false)
      ensures -1.0e-9 < Cooked() - (n.cooked - n.doffset) < 1.0e-9
      ensures old(driver.Outstanding()) + offset == 0.0 ==> driver.Outstanding() == 0.0
    {
      var raw := driver.raw;
      var cooked := CookTime();
      driver.AccrueOffset(offset, corrRate);
      n := Notice(raw, cooked, 0.0, offset, false);
    }

    /** LCL_ApplyStepOffset. */
    method ApplyStepOffset(offset: real) returns (n: Notice)
      requires Valid()
      modifies driver
      ensures Valid() && driver.raw == old(driver.raw) - offset
      ensures n == Notice(old(driver.raw), old(Cooked()), 0.0, offset, true)
      ensures -1.0e-9 < Cooked() - (n.cooked - n.doffset) < 1.0e-9
      ensures old(driver.Outstanding()) == 0.0 ==> driver.Outstanding() == 0.0
    {
      var raw := driver.raw;
      var cooked := CookTime();
      driver.ApplyStepOffset(offset);
      n := Notice(raw, cooked, 0.0, offset, true);
    }

    /** LCL_MakeStep: above the threshold the whole correction becomes a step; cooked time does not move
        and nothing is left to correct. */
    method MakeStep(threshold: real) returns (stepped: bool)
      requires Valid()
      modifies driver
      ensures Valid()
      ensures stepped <==> Abs(old(driver.Outstanding())) > threshold
      ensures Cooked() == old(Cooked())
      ensures stepped ==> driver.Outstanding() == 0.0 && driver.raw == old(driver.raw - driver.Outstanding())
      ensures !stepped ==> driver.Outstanding() == old(driver.Outstanding()) && driver.raw == old(driver.raw)
    {
      var correction := driver.GetOffsetCorrection();
      if Abs(correction) <= threshold {
        return false;
      }
      var slew := AccumulateOffset(correction, 0.0);
      var step := ApplyStepOffset(-correction);
      stepped := true;
    }

    /** LCL_ReadAbsoluteFrequency. */
    function ReadAbsoluteFrequency(): real
      requires Scale(tempComp) != 0.0
      reads this
    {
      Absolute(frequency, tempComp)
    }

    /** LCL_SetAbsoluteFrequency; setFreq stands for the driver's answer. */
    method SetAbsoluteFrequency(freq: real, setFreq: real -> real) returns (dfreq: real)
      requires Scale(tempComp) != 0.0 && 1000000.0 + frequency != 0.0
      modifies `frequency
      ensures frequency == setFreq(Compensated(freq, tempComp))
      ensures dfreq == Gradient(old(frequency), frequency)
      ensures frequency == Compensated(freq, tempComp) ==> ReadAbsoluteFrequency() == freq
    {
      CompensationRoundTrip(freq, tempComp);
      var value := freq;
      if tempComp != 0.0 {
        value := value * (1.0 - 0.000001 * tempComp) - tempComp;
      }
      assert value == Compensated(freq, tempComp);
      value := setFreq(value);
      dfreq := (value - frequency) / (1000000.0 + frequency);
      frequency := value;
    }

    /** LCL_AccumulateDeltaFrequency. */
    method AccumulateDeltaFrequency(d: real, setFreq: real -> real) returns (dfreq: real)
      requires 1000000.0 + frequency != 0.0
      modifies `frequency
      ensures frequency == setFreq(Accumulated(old(frequency), d))
      ensures dfreq == Gradient(old(frequency), frequency)
      ensures frequency == Accumulated(old(frequency), d) ==> dfreq == d
    {
      FrequencyChangesCompose(frequency, d, 0.0);
      var before := frequency;
      frequency := (1.0 + d) * frequency + 1000000.0 * d;
      assert frequency == Accumulated(before, d);
      frequency := setFreq(frequency);
      dfreq := (frequency - before) / (1000000.0 + before);
    }

    /** LCL_SetTempComp: the absolute frequency stays, whatever the driver makes of the new value. */
    method SetTempComp(comp: real, setFreq: real -> real) returns (actual: real)
      requires Scale(tempComp) != 0.0
      requires 1.0 + 0.000001 * Absolute(frequency, tempComp) != 0.0
      requires var free := Absolute(frequency, tempComp);
               Scale(Recorded(free, setFreq(Compensated(free, comp)))) != 0.0
      modifies this
      ensures actual == tempComp && Scale(tempComp) != 0.0
      ensures ReadAbsoluteFrequency() == old(ReadAbsoluteFrequency())
      ensures comp != old(tempComp) ==> frequency == setFreq(Compensated(old(ReadAbsoluteFrequency()), comp))
      ensures comp == old(tempComp) ==> frequency == old(frequency) && actual == comp
    {
      if tempComp == comp {
        return comp;
      }
      ghost var was := Absolute(frequency, tempComp);
      hide Absolute, Recorded, Compensated;
      frequency := Uncompensated();
      var free := frequency;
      frequency := Compensate(free, comp);
      frequency := setFreq(frequency);
      TempCompKeepsAbsolute(free, frequency);
      tempComp := RecordedComp(free, frequency);
      actual := tempComp;
    }

    method Uncompensated() returns (free: real)
      requires Scale(tempComp) != 0.0
      ensures free == Absolute(frequency, tempComp)
    {
      free := (frequency + tempComp) / (1.0 - 0.000001 * tempComp);
    }

    method Compensate(free: real, comp: real) returns (value: real)
      ensures value == Compensated(free, comp)
    {
      value := free * (1.0 - 0.000001 * comp) - comp;
    }

    method RecordedComp(free: real, actual: real) returns (comp: real)
      requires 1.0 + 0.000001 * free != 0.0
      ensures comp == Recorded(free, actual)
    {
      comp := (free - actual) / (0.000001 * free + 1.0);
    }
  }
}

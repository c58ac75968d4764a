/**
 Converting a raw 10-bit reading to milliamperes
 (power_profiler/power_profiler.py:28-30, 38, 107-109). The probe's current is
 1.3524 * ADC / Gain, where the amplifier gain is 1.98 on range 0 and 119.52
 on range 1. A strictly positive result is then lowered by a fixed zero-load
 offset of 0.0165 mA. Arithmetic is over exact reals, an idealisation of the
 program's double-precision floats.
 */
module Calibration {

  /** The two gain ranges the probe offers; BETA has one entry for each. */
  type Gain = g: nat | g < 2

  const Offset: real := 0.0165

  /** BETA[g]: milliamperes per ADC step on range g. */
  function Beta(g: Gain): (b: real)
    ensures b > 0.0
    ensures g == 0 ==> b * 1.98 == 1.3524
    ensures g == 1 ==> b * 119.52 == 1.3524
  {
    if g == 0 then 1.3524 / 1.98 else 1.3524 / 119.52
  }

  /** The current of a raw reading taken on range g. */
  function Calibrate(raw: nat, g: Gain): (mA: real)
    ensures raw == 0 ==> mA == 0.0
    ensures raw > 0 ==> mA == raw as real * Beta(g) - Offset
    ensures mA <= raw as real * Beta(g)
    ensures mA >= -Offset
  {
    var scaled := raw as real * Beta(g);
    if scaled > 0.0 then scaled - Offset else scaled
  }

  /** On range 1 the smallest nonzero reading lands below zero: the offset can flip the sign. */
  lemma OffsetCanFlipSign()
    ensures Calibrate(1, 1) < 0.0
    ensures Calibrate(1, 0) > 0.0
  {
  }

  /** Readings above zero keep their order after calibration, strictly. */
  lemma CalibrateMonotone(a: nat, b: nat, g: Gain)
    requires 0 < a < b
    ensures Calibrate(a, g) < Calibrate(b, g)
  {
    var beta := Beta(g);
    assert a as real * beta < b as real * beta;
  }

  /** Distinct readings stay distinct on either range, so the raw reading can be
      recovered from the current. */
  lemma CalibrateInjective(a: nat, b: nat, g: Gain)
    requires Calibrate(a, g) == Calibrate(b, g)
    ensures a == b
  {
    if a != b {
      if a > 0 && b > 0 {
        if a < b { CalibrateMonotone(a, b, g); } else { CalibrateMonotone(b, a, g); }
      } else {
        var k := if a == 0 then b else a;
        NeverZero(k, g);
      }
    }
  }

  /** No nonzero reading calibrates to exactly zero. */
  lemma NeverZero(k: nat, g: Gain)
    requires k > 0
    ensures Calibrate(k, g) != 0.0
  {
    if k >= 2 {
      CalibrateMonotone(1, k, g);
      CalibrateMonotone(1, 2, g);
      if k > 2 { CalibrateMonotone(2, k, g); }
      assert Calibrate(2, g) > 0.0;
    }
  }

  /** Recovering the raw reading from a current: the inverse of Calibrate on one range. */
  function Uncalibrate(mA: real, g: Gain): (raw: real)
  {
    if mA == 0.0 then 0.0 else (mA + Offset) / Beta(g)
  }

  lemma UncalibrateInverts(raw: nat, g: Gain)
    ensures Uncalibrate(Calibrate(raw, g), g) == raw as real
  {
    if raw > 0 {
      NeverZero(raw, g);
      var beta := Beta(g);
      assert (raw as real * beta - Offset + Offset) / beta == raw as real;
    }
  }
}

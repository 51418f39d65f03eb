/**
 * The ramp multiplier (`_set_current_ramping_multiplier`) and the final scaled value
 * (`_set_multiplied_heartrate`). Times and multipliers are exact reals; the float rounding
 * of the running program is not modelled.
 */
module Scaling {

  /**
   * The multiplier after `elapsed` seconds of monotonic time since start-up.
   * Before the warm-up ends it is `max * (elapsed / duration) + 1`, which runs from 1 toward
   * `max + 1`; from the end of the warm-up on it is exactly `max`, so the value drops at the
   * boundary. That drop is part of the behaviour modelled here.
   */
  function RampMultiplier(rampingMode: bool, maxMultiplier: real, secondsToMax: real, elapsed: real): (r: real)
    requires elapsed >= 0.0
    ensures !rampingMode ==> r == 1.0
    ensures rampingMode && elapsed >= secondsToMax ==> r == maxMultiplier
  {
    if !rampingMode then 1.0
    else if elapsed >= secondsToMax then maxMultiplier
    else maxMultiplier * (elapsed / secondsToMax) + 1.0
  }

  /** Before the boundary the multiplier is the linear ramp, starting at exactly 1. */
  lemma RampBeforeBoundary(maxMultiplier: real, secondsToMax: real, elapsed: real)
    requires 0.0 <= elapsed < secondsToMax
    ensures secondsToMax > 0.0
    ensures RampMultiplier(true, maxMultiplier, secondsToMax, elapsed) == maxMultiplier * (elapsed / secondsToMax) + 1.0
    ensures RampMultiplier(true, maxMultiplier, secondsToMax, 0.0) == 1.0
  {
  }

  /** For a non-negative maximum the ramp never decreases while the warm-up lasts. */
  lemma RampMonotone(maxMultiplier: real, secondsToMax: real, e1: real, e2: real)
    requires maxMultiplier >= 0.0
    requires 0.0 <= e1 <= e2 < secondsToMax
    ensures RampMultiplier(true, maxMultiplier, secondsToMax, e1) <= RampMultiplier(true, maxMultiplier, secondsToMax, e2)
  {
    DivMonotone(e1, e2, secondsToMax);
    MulMonotone(maxMultiplier, e1 / secondsToMax, e2 / secondsToMax);
  }

  lemma DivMonotone(a: real, b: real, d: real)
    requires a <= b && d > 0.0
    ensures a / d <= b / d
  {
    assert b / d - a / d == (b - a) / d;
  }

  lemma MulMonotone(m: real, a: real, b: real)
    requires m >= 0.0 && a <= b
    ensures m * a <= m * b
  {
    assert m * b - m * a == m * (b - a);
  }

  /** With a maximum of 0 the warm-up ramp stays at exactly 1, which is `max + 1`. */
  lemma RampZeroMaximum(secondsToMax: real, elapsed: real)
    requires 0.0 <= elapsed < secondsToMax
    ensures RampMultiplier(true, 0.0, secondsToMax, elapsed) == 1.0
  {
  }

  /** During the warm-up a positive maximum is approached from 1 but `max + 1` is never reached. */
  lemma RampBelowMaxPlusOne(maxMultiplier: real, secondsToMax: real, elapsed: real)
    requires maxMultiplier > 0.0
    requires 0.0 <= elapsed < secondsToMax
    ensures 1.0 <= RampMultiplier(true, maxMultiplier, secondsToMax, elapsed) < maxMultiplier + 1.0
  {
    var portion := elapsed / secondsToMax;
    assert 0.0 <= portion < 1.0 by {
      assert portion * secondsToMax == elapsed;
      if portion >= 1.0 {
        MulMonotone(secondsToMax, 1.0, portion);
      }
    }
    assert maxMultiplier * portion < maxMultiplier * 1.0 by {
      assert maxMultiplier * 1.0 - maxMultiplier * portion == maxMultiplier * (1.0 - portion);
    }
    MulMonotone(maxMultiplier, 0.0, portion);
    assert RampMultiplier(true, maxMultiplier, secondsToMax, elapsed) == maxMultiplier * portion + 1.0;
  }

  /**
   * For every positive maximum there is a moment before the boundary where the ramp exceeds
   * the maximum it is clamped to afterwards: `elapsed = duration * max / (max + 1)`.
   */
  lemma RampOvershootsBeforeBoundary(maxMultiplier: real, secondsToMax: real)
    requires maxMultiplier > 0.0 && secondsToMax > 0.0
    ensures var elapsed := secondsToMax * maxMultiplier / (maxMultiplier + 1.0);
      && 0.0 <= elapsed < secondsToMax
      && RampMultiplier(true, maxMultiplier, secondsToMax, elapsed) > maxMultiplier
      && RampMultiplier(true, maxMultiplier, secondsToMax, secondsToMax) == maxMultiplier
  {
    var m := maxMultiplier;
    var d := secondsToMax;
    var elapsed := d * m / (m + 1.0);
    var portion := m / (m + 1.0);
    assert elapsed == d * portion;
    assert 0.0 <= portion < 1.0;
    assert elapsed < d by {
      assert d - elapsed == d * (1.0 - portion);
    }
    assert elapsed / d == portion;
    assert m * portion + 1.0 > m by {
      assert (m * portion + 1.0) * (m + 1.0) == m * m + m + 1.0;
      assert m * (m + 1.0) == m * m + m;
    }
  }

  /** Python's `int()` on a float: the fractional part is dropped, rounding toward zero. */
  function Truncate(x: real): (r: int)
    ensures x >= 0.0 ==> 0 <= r && r as real <= x < r as real + 1.0
    ensures x < 0.0 ==> r <= 0 && r as real - 1.0 < x <= r as real
  {
    if x >= 0.0 then x.Floor else -((-x).Floor)
  }

  /** The value written in overwrite mode: smoothed rate times ramp times base, truncated. */
  function MultipliedHeartRate(smoothed: int, ramp: real, base: real): int
  {
    Truncate(smoothed as real * ramp * base)
  }

  /** The written value is the exact product with its fractional part dropped, rounding toward zero. */
  lemma MultipliedHeartRateBounds(smoothed: int, ramp: real, base: real)
    ensures var x := smoothed as real * ramp * base;
      var r := MultipliedHeartRate(smoothed, ramp, base);
      && (x >= 0.0 ==> 0 <= r && r as real <= x < r as real + 1.0)
      && (x < 0.0 ==> r <= 0 && r as real - 1.0 < x <= r as real)
  {
  }

  /** With ramping off and a base of 1.0 the smoothed rate is written unchanged. */
  lemma UnscaledPassesThrough(smoothed: int, elapsed: real, maxMultiplier: real, secondsToMax: real)
    requires elapsed >= 0.0
    ensures MultipliedHeartRate(smoothed, RampMultiplier(false, maxMultiplier, secondsToMax, elapsed), 1.0) == smoothed
  {
  }

  /** Smoothed 80, ramp 2.0 and base 1.0 give 160. */
  lemma MultipliedExample()
    ensures MultipliedHeartRate(80, 2.0, 1.0) == 160
  {
  }
}

/** The speed of lines 152-153 and the rounding of `showSnelheid`, in exact arithmetic:
    strips `afstand` = 0.6 m apart crossed `deltaTime` ms apart give
    0.6 / (deltaTime / 1000) * 3.6 = 2160 / deltaTime km/h. */
module Speed {
  import opened Arith

  /** `afstand` in millimetres. */
  const DistanceMm: int := 600

  /** km/h times ms for the configured distance: 3.6 * 600 = 2160. */
  const SpeedTimesMs: int := DistanceMm * 36 / 10

  /** `(int)(snelheid + 0.5)` for the exact speed `SpeedTimesMs / dt`: the whole number
      within half a km/h of it, halves rounded up. */
  function RoundedSpeed(dt: int): (v: int)
    requires dt > 0
    ensures 2 * dt * v <= 2 * SpeedTimesMs + dt < 2 * dt * (v + 1)
    ensures v >= 0
  {
    var a, d := 2 * SpeedTimesMs + dt, 2 * dt;
    Distribute(d, a / d, 1);
    a / d
  }

  /** Slower crossings never show a higher speed. */
  lemma {:induction false} RoundedSpeedMonotone(dt: int, dt': int)
    requires 0 < dt <= dt'
    ensures RoundedSpeed(dt') <= RoundedSpeed(dt)
  {
    var v, v' := RoundedSpeed(dt), RoundedSpeed(dt');
    if v' > v {
      var k := 2 * v' - 1;
      assert k * dt == 2 * dt * v' - dt;
      assert k * dt' == 2 * dt' * v' - dt';
      MulMono(2 * dt, v + 1, v');
      MulMono(k, dt, dt');
      assert false;
    }
  }

  /** 600 ms between the strips is 3.6 km/h, shown as 4; 100 ms is 21.6 km/h, shown as 22. */
  lemma RoundedSpeedExamples()
    ensures RoundedSpeed(600) == 4
    ensures RoundedSpeed(100) == 22
    ensures RoundedSpeed(1) == 2160
  {
  }
}

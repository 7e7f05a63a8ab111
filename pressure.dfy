/**
 * The pressure reading (project.py:68-71): every `Window` steps the momentum
 * handed to the six walls since the last reading is turned into a pressure,
 * impulse over wall area over elapsed time, and the accumulator is reset.
 */
module Pressure {
  import opened Reals

  datatype Option<T> = None | Some(value: T)

  /** Steps per reading; also the number of steps the accumulated impulse covers. */
  const Window: nat := 1000

  /** A reading is taken when the step count is a multiple of the window. */
  predicate ReadsAt(step: nat) {
    step % Window == 0
  }

  /** Total area `6 (2 L)^2` of the six faces of the box of side `2 L`. */
  function WallArea(L: real): real {
    6.0 * ((2.0 * L) * (2.0 * L))
  }

  lemma WallAreaPos(L: real)
    requires L > 0.0
    ensures WallArea(L) > 0.0
  {
    calc {
      WallArea(L);
    ==
      6.0 * ((2.0 * L) * (2.0 * L));
    > { MulPos(L, L); }
      0.0;
    }
  }

  /** Wall area times one time step: the denominator of the source's formula. */
  function Exposure(L: real, dt: real): real {
    WallArea(L) * dt
  }

  lemma ExposurePos(L: real, dt: real)
    requires L > 0.0 && dt > 0.0
    ensures Exposure(L, dt) > 0.0
  {
    calc {
      Exposure(L, dt);
    ==
      WallArea(L) * dt;
    > { WallAreaPos(L); MulPos(WallArea(L), dt); }
      0.0;
    }
  }

  /** `momentum / (6 * (2 * L) ** 2 * dt) / 1000`. */
  function WindowPressure(impulse: real, L: real, dt: real): real
    requires L > 0.0 && dt > 0.0
  {
    ExposurePos(L, dt);
    impulse / Exposure(L, dt) / 1000.0
  }

  /**
   * The reading is force per unit area: multiplied by the wall area and by
   * the time the window lasts, `Window * dt`, it gives back the impulse.
   */
  lemma PressureIsForcePerArea(impulse: real, L: real, dt: real)
    requires L > 0.0 && dt > 0.0
    ensures WindowPressure(impulse, L, dt) * WallArea(L) * (Window as real * dt) == impulse
  {
    var e := Exposure(L, dt);
    ExposurePos(L, dt);
    var q := impulse / e;
    calc {
      WindowPressure(impulse, L, dt) * WallArea(L) * (Window as real * dt);
    ==
      (q / 1000.0) * WallArea(L) * (1000.0 * dt);
    == { Rearrange(q / 1000.0, WallArea(L), 1000.0, dt); }
      (q / 1000.0 * 1000.0) * (WallArea(L) * dt);
    ==
      q * e;
    == { DivMul(impulse, e); }
      impulse;
    }
  }

  lemma Rearrange(a: real, b: real, c: real, d: real)
    ensures a * b * (c * d) == (a * c) * (b * d)
  {
  }

  /** Wall impulse is never negative, and neither is the pressure read from it. */
  lemma PressureNonNeg(impulse: real, L: real, dt: real)
    requires L > 0.0 && dt > 0.0
    requires impulse >= 0.0
    ensures WindowPressure(impulse, L, dt) >= 0.0
  {
    ExposurePos(L, dt);
    DivNonNeg(impulse, Exposure(L, dt));
    DivNonNeg(impulse / Exposure(L, dt), 1000.0);
  }

  /** More impulse in the window reads as more pressure. */
  lemma PressureMonotone(i1: real, i2: real, L: real, dt: real)
    requires L > 0.0 && dt > 0.0
    requires i1 <= i2
    ensures WindowPressure(i1, L, dt) <= WindowPressure(i2, L, dt)
  {
    ExposurePos(L, dt);
    DivMonotone(i1, i2, Exposure(L, dt));
    DivMonotone(i1 / Exposure(L, dt), i2 / Exposure(L, dt), 1000.0);
  }

  /** Among any `Window` consecutive step counts exactly one takes a reading. */
  lemma OneReadingPerWindow(step: nat, k: nat)
    requires k < Window
    ensures ReadsAt(step + k) <==> k == (Window - step % Window) % Window
  {
  }
}

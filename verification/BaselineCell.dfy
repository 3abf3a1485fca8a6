/** One cell of the adaptive baseline, in Q8 fixed point. */
module BaselineCell {
  import opened Machine
  import opened Arithmetic

  const Q8_MAX := 0xff_ff00
  const NOISE_SHIFT := 6

  /** Tunables, within the ranges the driver lets user space write. The noise, positive and
      negative rates have no such knob and keep their defaults. */
  datatype Config = Config(
    enabled: bool, initial: u16,
    noiseDeadband: int, noiseTracking: bool, peakThreshold: int,
    holdFrames: u8,
    backgroundShift: nat, backgroundMax: int,
    noFingerShift: nat, noFingerMax: int,
    recoveryShift: nat, recoveryMax: int, recoveryFrames: u8)
  {
    ghost predicate Valid() {
      && 0 <= noiseDeadband <= 200 && 1 <= peakThreshold <= 2000
      && backgroundShift <= 15 && noFingerShift <= 15 && recoveryShift <= 15
      && 1 <= backgroundMax <= 2048 && 1 <= noFingerMax <= 2048 && 1 <= recoveryMax <= 2048
      && 1 <= recoveryFrames <= 120
    }
  }

  /** A fraction 2^-shift of the difference, in Q8, at most maxStep whole units. The right shift
      rounds towards minus infinity. */
  function StepQ8(delta: int, shift: nat, maxStep: int): int {
    var limit := (if maxStep > 0 then maxStep else 0) * 256;
    if delta == 0 then 0
    else Clamp(delta * 256 / Pow2(if shift < 30 then shift else 30), -limit, limit)
  }

  lemma {:induction false} Pow2Monotone(a: nat, b: nat)
    requires a <= b
    ensures Pow2(a) <= Pow2(b)
    decreases b
  {
    if a < b {
      Pow2Monotone(a, b - 1);
    }
  }

  /** Dividing by a power of two never leaves the interval between zero and the dividend. */
  lemma FloorDivBetween(x: int, d: int)
    requires d >= 1
    ensures x >= 0 ==> 0 <= x / d <= x
    ensures x < 0 ==> x <= x / d < 0
  {
    if x >= 0 {
      DivNonNegative(x, d);
    } else {
      DivNegative(x, d);
    }
  }

  lemma MulBounds(q: int, d: int)
    requires d >= 1
    ensures q >= 0 ==> q * d >= q
    ensures q <= -1 ==> q * d <= q && q * d <= -d
  {
  }

  lemma DivNonNegative(x: int, d: int)
    requires d >= 1 && x >= 0
    ensures 0 <= x / d <= x
  {
    assert x == (x / d) * d + x % d;
    MulBounds(x / d, d);
  }

  lemma DivNegative(x: int, d: int)
    requires d >= 1 && x < 0
    ensures x <= x / d < 0
  {
    var q := x / d;
    assert x == q * d + x % d;
    MulBounds(q, d);
    MulBounds(x, d);
    MulBounds(q - x, d);
    assert (q - x) * d == q * d - x * d;
  }

  /** A step goes towards the sample, never past it, and never further than maxStep. */
  lemma StepBounds(delta: int, shift: nat, maxStep: int)
    requires maxStep >= 0
    ensures var s := StepQ8(delta, shift, maxStep);
      && -maxStep * 256 <= s <= maxStep * 256
      && (delta >= 0 ==> 0 <= s <= delta * 256)
      && (delta <= 0 ==> delta * 256 <= s <= 0)
  {
    FloorDivBetween(delta * 256, Pow2(if shift < 30 then shift else 30));
  }

  /** A downward step is never zero; an upward one is exactly when the difference is too small
      for the shift. */
  lemma StepMoves(delta: int, shift: nat, maxStep: int)
    requires maxStep >= 1 && shift <= 15 && delta != 0
    ensures delta < 0 ==> StepQ8(delta, shift, maxStep) <= -1
    ensures delta > 0 ==> (StepQ8(delta, shift, maxStep) >= 1 <==> delta * 256 >= Pow2(shift))
  {
    var x, d := delta * 256, Pow2(shift);
    FloorDivBetween(x, d);
    if delta > 0 {
      QuotientPositive(x, d);
    }
  }

  lemma QuotientPositive(x: int, d: int)
    requires d >= 1 && x >= 0
    ensures x / d >= 1 <==> x >= d
  {
    var q := x / d;
    assert x == q * d + x % d;
    MulBounds(q, d);
    MulBounds(q - 1, d);
    assert (q - 1) * d == q * d - d;
  }

  function Saturate(q8: int): int { Clamp(q8, 0, Q8_MAX) }

  datatype Outcome = Outcome(q8: int, hold: u8, signal: int, froze: bool)

  /** What one frame does to one cell. */
  function UpdateCell(cfg: Config, q8: int, hold: u8, sample: u16, hasSignal: bool, recovery: bool,
                      common: int): Outcome {
    var delta := sample - q8 / 256;
    var local := delta - common;
    if !cfg.enabled then Outcome(q8, hold, Saturate16(sample - cfg.initial), false)
    else if hasSignal && local >= cfg.peakThreshold then
      Outcome(Saturate(q8 + StepQ8(common, cfg.backgroundShift, cfg.backgroundMax)), cfg.holdFrames, Saturate16(local),
          true)
    else if hold > 0 then
      Outcome(q8, hold - 1, if local < -13 then Saturate16(local) else 0, false)
    else
      Outcome(Saturate(q8 + AdaptStep(cfg, delta, hasSignal, recovery)), 0, 0, false)
  }

  function Saturate16(x: int): s16 { Clamp(x, -0x8000, 0x7fff) }

  /** The step of a cell that is neither frozen nor held. */
  function AdaptStep(cfg: Config, delta: int, hasSignal: bool, recovery: bool): int {
    if !hasSignal then
      if Abs(delta) <= cfg.noiseDeadband && cfg.noiseTracking then StepQ8(delta, NOISE_SHIFT, 1)
      else StepQ8(delta, cfg.noFingerShift, cfg.noFingerMax)
    else if recovery then StepQ8(delta, cfg.recoveryShift, cfg.recoveryMax)
    else if Abs(delta) <= cfg.noiseDeadband && cfg.noiseTracking then StepQ8(delta, NOISE_SHIFT, 1)
    else if delta > 14 then StepQ8(delta, 7, 20)
    else if delta < -13 then StepQ8(delta, 5, 20)
    else 0
  }

  /** The largest step, in whole units, a cell may take in the given situation. */
  function MaxStep(cfg: Config, froze: bool, hasSignal: bool, recovery: bool): int {
    if froze then cfg.backgroundMax
    else if !hasSignal then cfg.noFingerMax
    else if recovery then cfg.recoveryMax
    else 20
  }

  lemma AdaptBounds(cfg: Config, delta: int, hasSignal: bool, recovery: bool)
    requires cfg.Valid()
    ensures var s := AdaptStep(cfg, delta, hasSignal, recovery);
      && Abs(s) <= MaxStep(cfg, false, hasSignal, recovery) * 256
      && (delta >= 0 ==> 0 <= s <= delta * 256)
      && (delta <= 0 ==> delta * 256 <= s <= 0)
  {
    StepBounds(delta, NOISE_SHIFT, 1);
    StepBounds(delta, cfg.noFingerShift, cfg.noFingerMax);
    StepBounds(delta, cfg.recoveryShift, cfg.recoveryMax);
    StepBounds(delta, 7, 20);
    StepBounds(delta, 5, 20);
  }

  /** The baseline stays in range, moves by at most the step allowed in its situation, and away
      from frozen cells its integer part never passes the sample. */
  lemma CellSafe(cfg: Config, q8: int, hold: u8, sample: u16, hasSignal: bool, recovery: bool, common: int)
    requires cfg.Valid() && 0 <= q8 <= Q8_MAX
    ensures var o := UpdateCell(cfg, q8, hold, sample, hasSignal, recovery, common);
      && 0 <= o.q8 <= Q8_MAX
      && Abs(o.q8 - q8) <= MaxStep(cfg, o.froze, hasSignal, recovery) * 256
      && (!o.froze && q8 / 256 <= sample ==> q8 <= o.q8 && o.q8 / 256 <= sample)
      && (!o.froze && q8 / 256 >= sample ==> q8 >= o.q8 && o.q8 / 256 >= sample)
  {
    AdaptBounds(cfg, sample - q8 / 256, hasSignal, recovery);
    StepBounds(common, cfg.backgroundShift, cfg.backgroundMax);
  }

  // ----- coming closer to a constant sample

  /** The tunables let every upward difference up to hi move the baseline. */
  ghost predicate MovesUpTo(cfg: Config, hi: int) {
    || hi <= 0 || cfg.noFingerShift <= 8
    || (cfg.noiseTracking && cfg.noiseDeadband >= Min(hi, Pow2(cfg.noFingerShift - 8) - 1))
  }

  /** Q8 units still to go before the integer baseline equals the sample. */
  ghost function ToGo(q8: int, sample: u16): nat {
    if q8 / 256 < sample then sample * 256 - q8
    else if q8 / 256 > sample then q8 - (sample * 256 + 255)
    else 0
  }

  lemma AdaptMoves(cfg: Config, delta: int, hi: int)
    requires cfg.Valid() && MovesUpTo(cfg, hi) && delta != 0 && delta <= hi
    ensures AdaptStep(cfg, delta, false, false) != 0
  {
    StepMoves(delta, NOISE_SHIFT, 1);
    StepMoves(delta, cfg.noFingerShift, cfg.noFingerMax);
    assert Pow2(6) == 64 && Pow2(8) == 256;
    if cfg.noFingerShift <= 8 {
      Pow2Monotone(cfg.noFingerShift, 8);
    } else {
      Pow2Split(cfg.noFingerShift);
    }
  }

  lemma {:induction false} Pow2Split(k: nat)
    requires k >= 8
    ensures Pow2(k) == 256 * Pow2(k - 8)
    decreases k
  {
    if k == 8 {
      assert Pow2(8) == 256;
    } else {
      Pow2Split(k - 1);
    }
  }

  /** A frame without any signal either runs down the hold or brings the cell at least one unit closer. */
  lemma FrameApproaches(cfg: Config, q8: int, hold: u8, sample: u16, common: int, hi: int)
    requires cfg.Valid() && cfg.enabled && MovesUpTo(cfg, hi) && 0 <= q8 <= Q8_MAX && sample - q8 / 256 <= hi
    ensures var o := UpdateCell(cfg, q8, hold, sample, false, false, common);
      && 0 <= o.q8 <= Q8_MAX
      && (hold + ToGo(q8, sample) > 0 ==> o.hold + ToGo(o.q8, sample) < hold + ToGo(q8, sample))
      && (hold + ToGo(q8, sample) == 0 ==> o.hold + ToGo(o.q8, sample) == 0)
  {
    var delta := sample - q8 / 256;
    CellSafe(cfg, q8, hold, sample, false, false, common);
    if hold == 0 && delta != 0 {
      AdaptMoves(cfg, delta, hi);
      AdaptBounds(cfg, delta, false, false);
    }
  }

  /** Too small a difference for the shift, outside the noise deadband: nothing moves the cell. */
  lemma TooSmallToMove(cfg: Config, hi: int) returns (d: u16)
    requires cfg.Valid() && cfg.enabled && !MovesUpTo(cfg, hi)
    ensures 1 <= d <= hi
    ensures forall common :: UpdateCell(cfg, 0, 0, d, false, false, common).q8 == 0
  {
    Pow2Split(cfg.noFingerShift);
    Pow2Monotone(1, cfg.noFingerShift - 8);
    Pow2Monotone(cfg.noFingerShift - 8, 7);
    assert Pow2(1) == 2 && Pow2(7) == 128;
    d := Min(hi, Pow2(cfg.noFingerShift - 8) - 1);
    StepMoves(d, cfg.noFingerShift, cfg.noFingerMax);
    StepBounds(d, cfg.noFingerShift, cfg.noFingerMax);
  }
}

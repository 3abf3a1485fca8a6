/** What becomes of the working grid when live frames repeat one finger-free sample. */
module Settling {
  import opened Machine
  import opened Firmware
  import opened Arithmetic
  import opened Sealing
  import opened Grid
  import opened Instability
  import opened BaselineCell
  import opened CommonMode
  import opened Baseline

  /** A live state as the driver can reach it. */
  ghost predicate Sized(s: Live) {
    |s.q8| == |s.hold| == 2400 && forall i | 0 <= i < PIXELS :: 0 <= s.q8[i] <= Q8_MAX
  }

  /** The sample is above the grid by at most hi and below it by at most -lo. */
  ghost predicate Differs(raw: Raw, s: Live, lo: int, hi: int) {
    |s.q8| == 2400 && forall i | 0 <= i < PIXELS :: lo <= raw[i] - s.q8[i] / 256 <= hi
  }

  /** One more frame of the same sample, with no finger reported and no track alive. */
  ghost predicate FreeStep(cfg: Config, raw: Raw, s: Live, t: Live) {
    LiveStep(cfg, Sample(raw, Absent), false, s, t) || LiveStep(cfg, Sample(raw, Unknown), false, s, t)
  }

  /** A run of live frames of one finger-free sample. Whether a frame counts as touched is the
      driver's own decision, not part of the hypothesis. */
  ghost predicate IsFreeRun(cfg: Config, raw: Raw, run: seq<Live>) {
    run != [] && forall k | 0 <= k < |run| - 1 :: FreeStep(cfg, raw, run[k], run[k + 1])
  }

  /** Every cell's integer baseline equals the sample. */
  ghost predicate Level(raw: Raw, s: Live) {
    |s.q8| == 2400 && forall i | 0 <= i < PIXELS :: s.q8[i] / 256 == raw[i]
  }

  /** From the n-th frame on the grid equals the sample, in every run from s. */
  ghost predicate LevelFrom(cfg: Config, raw: Raw, s: Live, n: nat) {
    forall run: seq<Live>, k | IsFreeRun(cfg, raw, run) && run[0] == s && n <= k < |run| :: Level(raw, run[k])
  }

  ghost predicate Settles(cfg: Config, raw: Raw, s: Live) {
    exists n :: LevelFrom(cfg, raw, s, n)
  }

  // ----- as long as no frame counts as touched

  /** No cell needs more than n frames, its release hold included. */
  ghost predicate Within(raw: Raw, s: Live, n: nat) {
    && |s.q8| == |s.hold| == 2400
    && forall i | 0 <= i < PIXELS :: s.hold[i] + ToGo(s.q8[i], raw[i]) <= n
  }

  /** An untouched frame: every cell comes closer and none overshoots. */
  lemma UntouchedStep(cfg: Config, raw: Raw, s: Live, t: Live, lo: int, hi: int, n: nat)
    requires cfg.Valid() && cfg.enabled && MovesUpTo(cfg, hi) && Sized(s) && Differs(raw, s, lo, hi) && lo <= 0 <= hi
    requires FreeStep(cfg, raw, s, t) && !t.hadSignal && Within(raw, s, n)
    ensures Sized(t) && Differs(raw, t, lo, hi) && Within(raw, t, if n > 0 then n - 1 else 0)
  {
    assert Open(0);
    var x := if LiveStep(cfg, Sample(raw, Absent), false, s, t) then Sample(raw, Absent) else Sample(raw, Unknown);
    var common: int, frame: seq<int> :| Adapts(cfg, x, false, s, common, t, frame);
    assert AdaptsAs(cfg, x, false, s, common, t, frame);
    CellsComeCloser(cfg, raw, s, common, t, frame, lo, hi, n);
  }

  lemma CellsComeCloser(cfg: Config, raw: Raw, s: Live, common: int, t: Live, frame: seq<int>, lo: int, hi: int, n: nat)
    requires cfg.Valid() && cfg.enabled && MovesUpTo(cfg, hi) && Sized(s) && Differs(raw, s, lo, hi) && lo <= 0 <= hi
    requires CellsAdapt(cfg, raw, false, false, common, s.q8, s.hold, t.q8, t.hold, frame) && Within(raw, s, n)
    ensures Sized(t) && Differs(raw, t, lo, hi) && Within(raw, t, if n > 0 then n - 1 else 0)
  {
    forall i | 0 <= i < PIXELS
      ensures 0 <= t.q8[i] <= Q8_MAX && lo <= raw[i] - t.q8[i] / 256 <= hi
      ensures t.hold[i] + ToGo(t.q8[i], raw[i]) <= if n > 0 then n - 1 else 0
    {
      FrameApproaches(cfg, s.q8[i], s.hold[i], raw[i], common, hi);
      CellSafe(cfg, s.q8[i], s.hold[i], raw[i], false, false, common);
    }
  }

  lemma {:induction false} UntouchedRunComesCloser(cfg: Config, raw: Raw, run: seq<Live>, lo: int, hi: int, n: nat,
      k: nat)
    requires cfg.Valid() && cfg.enabled && MovesUpTo(cfg, hi) && lo <= 0 <= hi && IsFreeRun(cfg, raw, run) && k < |run|
    requires Sized(run[0]) && Differs(raw, run[0], lo, hi) && Within(raw, run[0], n)
    requires forall j | 1 <= j <= k :: !run[j].hadSignal
    ensures Sized(run[k]) && Differs(raw, run[k], lo, hi) && Within(raw, run[k], if k <= n then n - k else 0)
  {
    if k > 0 {
      UntouchedRunComesCloser(cfg, raw, run, lo, hi, n, k - 1);
      assert FreeStep(cfg, raw, run[k - 1], run[k - 1 + 1]);
      UntouchedStep(cfg, raw, run[k - 1], run[k], lo, hi, if k - 1 <= n then n - (k - 1) else 0);
    }
  }

  /** Frames enough for every cell whose difference lies in the range. */
  function Frames(lo: int, hi: int): nat { 255 + 256 * Max(Max(-lo, hi), 0) }

  lemma StartWithin(raw: Raw, s: Live, lo: int, hi: int)
    requires Sized(s) && Differs(raw, s, lo, hi)
    ensures Within(raw, s, Frames(lo, hi))
  {
    forall i | 0 <= i < PIXELS ensures s.hold[i] + ToGo(s.q8[i], raw[i]) <= Frames(lo, hi) {
      assert lo <= raw[i] - s.q8[i] / 256 <= hi;
    }
  }

  /** A run none of whose frames counts as touched is level after a known number of frames. */
  lemma UntouchedRunLevels(cfg: Config, raw: Raw, run: seq<Live>, lo: int, hi: int, k: nat)
    requires cfg.Valid() && cfg.enabled && MovesUpTo(cfg, hi) && lo <= 0 <= hi && IsFreeRun(cfg, raw, run)
    requires Sized(run[0]) && Differs(raw, run[0], lo, hi) && Frames(lo, hi) <= k < |run|
    requires forall j | 1 <= j <= k :: !run[j].hadSignal
    ensures Level(raw, run[k])
  {
    StartWithin(raw, run[0], lo, hi);
    UntouchedRunComesCloser(cfg, raw, run, lo, hi, Frames(lo, hi), k);
    forall i | 0 <= i < PIXELS ensures run[k].q8[i] / 256 == raw[i] {
      assert ToGo(run[k].q8[i], raw[i]) == 0;
    }
  }

  // ----- when no frame can count as touched

  /** With all differences in a range narrower than the peak threshold, no cell stands out. */
  lemma NarrowIsUntouched(cfg: Config, raw: Raw, s: Live, t: Live, lo: int, hi: int)
    requires FreeStep(cfg, raw, s, t) && Differs(raw, s, lo, hi) && hi - lo < cfg.peakThreshold
    ensures !t.hadSignal
  {
    assert Open(0);
    var x := if LiveStep(cfg, Sample(raw, Absent), false, s, t) then Sample(raw, Absent) else Sample(raw, Unknown);
    var common: int, frame: seq<int> :| Adapts(cfg, x, false, s, common, t, frame);
    assert AdaptsAs(cfg, x, false, s, common, t, frame);
    var d := Differences(raw, s.q8);
    var b :| 0 <= b < BINS && MiddleBin(d, b) && CountBin(d, b, PIXELS) > 0 && common == Estimate(d, b);
    EstimateInHull(d, b, lo, hi);
  }

  lemma {:induction false} NarrowRunIsUntouched(cfg: Config, raw: Raw, run: seq<Live>, lo: int, hi: int, k: nat)
    requires cfg.Valid() && cfg.enabled && MovesUpTo(cfg, hi) && lo <= 0 <= hi && hi - lo < cfg.peakThreshold
    requires IsFreeRun(cfg, raw, run) && Sized(run[0]) && Differs(raw, run[0], lo, hi) && k < |run|
    ensures forall j | 1 <= j <= k :: !run[j].hadSignal
  {
    if k > 0 {
      NarrowRunIsUntouched(cfg, raw, run, lo, hi, k - 1);
      StartWithin(raw, run[0], lo, hi);
      UntouchedRunComesCloser(cfg, raw, run, lo, hi, Frames(lo, hi), k - 1);
      assert FreeStep(cfg, raw, run[k - 1], run[k - 1 + 1]);
      NarrowIsUntouched(cfg, raw, run[k - 1], run[k], lo, hi);
    }
  }

  /** If the first differences lie in a range narrower than the peak threshold, and the tunables move
      them, every cell reaches the sample within a known number of frames and stays there. */
  lemma NarrowStartSettles(cfg: Config, raw: Raw, s: Live, lo: int, hi: int)
    requires cfg.Valid() && cfg.enabled && MovesUpTo(cfg, hi) && lo <= 0 <= hi && hi - lo < cfg.peakThreshold
    requires Sized(s) && Differs(raw, s, lo, hi)
    ensures LevelFrom(cfg, raw, s, Frames(lo, hi))
  {
    forall run: seq<Live>, k | IsFreeRun(cfg, raw, run) && run[0] == s && Frames(lo, hi) <= k < |run|
      ensures Level(raw, run[k])
    {
      NarrowRunIsUntouched(cfg, raw, run, lo, hi, k);
      UntouchedRunLevels(cfg, raw, run, lo, hi, k);
    }
  }

  // ----- a cell that stands out, and one too close to move

  const ODD_ONE := 100

  /** Zero everywhere but in one cell. */
  function Single(x: u16): (raw: Raw)
    ensures forall i | 0 <= i < PIXELS :: raw[i] == if i == ODD_ONE then x else 0
  {
    seq(2400, i requires 0 <= i < 2400 => if i == ODD_ONE then x else 0)
  }

  /** The grid is zero, and only the odd cell may be held. */
  ghost predicate Stuck(s: Live) {
    && |s.q8| == |s.hold| == 2400
    && forall i | 0 <= i < PIXELS :: s.q8[i] == 0 && (i != ODD_ONE ==> s.hold[i] == 0)
  }

  lemma {:induction false} SingleCounts(d: Deltas, x: int, k: nat)
    requires k <= PIXELS && x >= 0 && forall i | 0 <= i < PIXELS :: d[i] == if i == ODD_ONE then x else 0
    ensures CountBelow(d, 0, k) == 0
    ensures CountBelow(d, 64, k) + (if k > ODD_ONE && x >= 64 then 1 else 0) == if k <= 1 then 0 else k - 1
    ensures CountBin(d, 1024, k) == CountBelow(d, 64, k) && SumBin(d, 1024, k) == if k > ODD_ONE && x < 64 then x else 0
  {
    if k > 1 {
      SingleCounts(d, x, k - 1);
    }
  }

  /** The drift estimate of such a frame is 0. */
  lemma SingleHasNoDrift(d: Deltas, x: u16)
    requires forall i | 0 <= i < PIXELS :: d[i] == if i == ODD_ONE then x else 0
    ensures IsCommon(d, 0)
  {
    SingleCounts(d, x, PIXELS);
    assert BinStart(1024) == 0 && BinStart(1025) == 64;
    assert MiddleBin(d, 1024);
    assert SumBin(d, 1024, PIXELS) < 64 <= CountBin(d, 1024, PIXELS);
    assert Estimate(d, 1024) == 0;
  }

  /** The next state under a drift estimate of 0. */
  ghost function Next(cfg: Config, raw: Raw, s: Live): Live
    requires cfg.Valid() && Stuck(s)
  {
    var touched := Touched(cfg, Differences(raw, s.q8), 0, Absent, false);
    var recovery := Recovers(cfg, s, touched);
    Live(seq(2400, i requires 0 <= i < 2400 => UpdateCell(cfg, s.q8[i], s.hold[i], raw[i], touched, recovery, 0).q8),
         seq(2400, i requires 0 <= i < 2400 => UpdateCell(cfg, s.q8[i], s.hold[i], raw[i], touched, recovery, 0).hold),
         touched, AnyFreezes(cfg, s.q8, raw, touched, 0), RecoveriesAfter(cfg, s, touched))
  }

  lemma NextIsStep(cfg: Config, x: u16, s: Live)
    requires cfg.Valid() && Stuck(s)
    ensures FreeStep(cfg, Single(x), s, Next(cfg, Single(x), s))
  {
    var raw, t := Single(x), Next(cfg, Single(x), s);
    var touched := Touched(cfg, Differences(raw, s.q8), 0, Absent, false);
    SingleHasNoDrift(Differences(raw, s.q8), x);
    var frame := seq(2400, i requires 0 <= i < 2400 =>
      if i == 0 then 0 else UpdateCell(cfg, s.q8[i], s.hold[i], raw[i], touched, Recovers(cfg, s, touched), 0).signal);
    assert AdaptsAs(cfg, Sample(raw, Absent), false, s, 0, t, frame);
    assert Adapts(cfg, Sample(raw, Absent), false, s, 0, t, frame);
  }

  /** The odd cell stays where it is: it stands out and is frozen, or it is too close to move. */
  ghost predicate StaysPut(cfg: Config, x: u16, s: Live)
    requires |s.hold| == 2400
  {
    || x >= cfg.peakThreshold
    || (s.hold[ODD_ONE] == 0 && forall common :: UpdateCell(cfg, 0, 0, x, false, false, common).q8 == 0)
  }

  lemma NextIsStuck(cfg: Config, x: u16, s: Live)
    requires cfg.Valid() && cfg.enabled && Stuck(s) && StaysPut(cfg, x, s)
    ensures Stuck(Next(cfg, Single(x), s)) && StaysPut(cfg, x, Next(cfg, Single(x), s))
  {
    var raw := Single(x);
    var touched := Touched(cfg, Differences(raw, s.q8), 0, Absent, false);
    assert touched <==> x >= cfg.peakThreshold by {
      assert Differences(raw, s.q8)[ODD_ONE] == x;
    }
  }

  /** A run of any length in which the odd cell never moves. */
  lemma {:induction false} StuckRun(cfg: Config, x: u16, s: Live, n: nat) returns (run: seq<Live>)
    requires cfg.Valid() && cfg.enabled && Stuck(s) && StaysPut(cfg, x, s)
    ensures IsFreeRun(cfg, Single(x), run) && |run| == n + 1 && run[0] == s && Stuck(run[n]) && StaysPut(cfg, x, run[n])
  {
    if n == 0 {
      run := [s];
    } else {
      run := StuckRun(cfg, x, s, n - 1);
      NextIsStep(cfg, x, run[n - 1]);
      NextIsStuck(cfg, x, run[n - 1]);
      run := run + [Next(cfg, Single(x), run[n - 1])];
    }
  }

  /** The grid a stuck run starts from. */
  function Zeros(): (s: Live) { Live(seq(2400, _ => 0), seq(2400, _ => 0), false, false, 0) }

  /** Above an otherwise level panel, a cell that stands out is never learned, and neither is one too
      close to move. */
  lemma NeverLevel(cfg: Config, x: u16)
    requires cfg.Valid() && cfg.enabled && x > 0 && StaysPut(cfg, x, Zeros())
    ensures !Settles(cfg, Single(x), Zeros())
  {
    forall n: nat ensures !LevelFrom(cfg, Single(x), Zeros(), n) {
      var run := StuckRun(cfg, x, Zeros(), n);
      assert run[n].q8[ODD_ONE] / 256 != Single(x)[ODD_ONE];
      assert !Level(Single(x), run[n]);
    }
  }

  /** From every grid that the sample exceeds by at most hi, every cell reaches the sample and stays
      there, exactly when hi is below the peak threshold and the tunables move every difference up to it. */
  lemma SettlesExactlyWhen(cfg: Config, hi: u16)
    requires cfg.Valid() && cfg.enabled
    ensures (hi < cfg.peakThreshold && MovesUpTo(cfg, hi)) <==>
      forall raw: Raw, s: Live | Sized(s) && Differs(raw, s, 0, hi) :: Settles(cfg, raw, s)
  {
    if hi < cfg.peakThreshold && MovesUpTo(cfg, hi) {
      forall raw: Raw, s: Live | Sized(s) && Differs(raw, s, 0, hi) ensures Settles(cfg, raw, s) {
        NarrowStartSettles(cfg, raw, s, 0, hi);
      }
    } else {
      var x: u16 := hi;
      if hi < cfg.peakThreshold {
        x := TooSmallToMove(cfg, hi);
      }
      NeverLevel(cfg, x);
      assert Differs(Single(x), Zeros(), 0, hi);
    }
  }
}
